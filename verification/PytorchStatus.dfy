/**
 The verdict on a PyTorch job (controllers/pytorch/status.go).

 The loop ranges over a Go map without stopping at a verdict, and conditions keep the first verdict they get,
 so the order of the map can decide. `order` below is the order one execution happened to take.
 */
module PytorchStatus {
  import opened Common
  import opened Conditions
  import opened Pods

  /** The reports of a pass in the order they are made; only their types matter for the verdict. */
  function UpdateAll(cs: seq<Condition>, reports: seq<Report>): seq<Condition> {
    if reports == [] then cs else Update(UpdateAll(cs, reports[..|reports| - 1]), reports[|reports| - 1])
  }

  predicate HasMaster(specs: map<ReplicaType, int>) {
    Master in specs || AIMaster in specs
  }

  predicate AllWorkersSucceed(specs: map<ReplicaType, int>, statuses: map<ReplicaType, ReplicaStatus>) {
    Worker in specs && specs[Worker] == if Worker in statuses then statuses[Worker].succeeded else 0
  }

  /** The type completes the job: AIMaster alone does, Master only with all workers, if there are any. */
  predicate Succeeds(t: ReplicaType, specs: map<ReplicaType, int>, statuses: map<ReplicaType, ReplicaStatus>) {
    && t in specs && t in statuses && (t == Master || t == AIMaster)
    && specs[t] > 0 && statuses[t].succeeded == specs[t]
    && (t == AIMaster || Worker !in specs || AllWorkersSucceed(specs, statuses))
  }

  /** The type fails the job: a failed replica, and no restart or the failure is AIMaster's. */
  predicate Fails(t: ReplicaType, specs: map<ReplicaType, int>, statuses: map<ReplicaType, ReplicaStatus>, restart: bool) {
    t in specs && t in statuses && statuses[t].failed > 0 && (!restart || t == AIMaster)
  }

  function TypesOf(reports: seq<Report>): (r: seq<ConditionType>)
    ensures |r| == |reports| && forall i :: 0 <= i < |r| ==> r[i] == reports[i].typ
  {
    seq(|reports|, i requires 0 <= i < |reports| => reports[i].typ)
  }

  lemma {:induction false} UpdateAllConcat(cs: seq<Condition>, a: seq<Report>, b: seq<Report>)
    ensures UpdateAll(cs, a + b) == UpdateAll(UpdateAll(cs, a), b)
  {
    if b == [] {
      assert a + b == a;
    } else {
      UpdateAllConcat(cs, a, b[..|b| - 1]);
      assert (a + b)[..|a + b| - 1] == a + b[..|b| - 1];
    }
  }

  lemma TypesConcat(a: seq<Report>, b: seq<Report>)
    ensures TypesOf(a + b) == TypesOf(a) + TypesOf(b)
  {
  }

  /** What the loop reports on one type: progress and success first, failure after it. */

  function Running(t: ReplicaType, statuses: map<ReplicaType, ReplicaStatus>): seq<ConditionType>
    requires t in statuses
  {
    if (t == Master || t == AIMaster) && statuses[t].active > 0 then [JobRunning] else []
  }

  function Success(t: ReplicaType, specs: map<ReplicaType, int>, statuses: map<ReplicaType, ReplicaStatus>): seq<ConditionType> {
    if Succeeds(t, specs, statuses) then [JobSucceeded] else []
  }

  function Failure(t: ReplicaType, specs: map<ReplicaType, int>, statuses: map<ReplicaType, ReplicaStatus>, restart: bool)
    : seq<ConditionType>
    requires t in specs && t in statuses
  {
    if Fails(t, specs, statuses, restart) then [JobFailed]
    else if statuses[t].failed > 0 then [JobRestarting]
    else []
  }

  function Reported(t: ReplicaType, specs: map<ReplicaType, int>, statuses: map<ReplicaType, ReplicaStatus>, restart: bool)
    : seq<ConditionType>
  {
    if t !in specs || t !in statuses then []
    else Running(t, statuses) + Success(t, specs, statuses) + Failure(t, specs, statuses, restart)
  }

  function ReportedBy(order: seq<ReplicaType>, specs: map<ReplicaType, int>, statuses: map<ReplicaType, ReplicaStatus>,
                      restart: bool): seq<ConditionType>
  {
    if order == [] then []
    else ReportedBy(order[..|order| - 1], specs, statuses, restart)
         + Reported(order[|order| - 1], specs, statuses, restart)
  }

  predicate Decides(t: ReplicaType, specs: map<ReplicaType, int>, statuses: map<ReplicaType, ReplicaStatus>, restart: bool) {
    Succeeds(t, specs, statuses) || Fails(t, specs, statuses, restart)
  }

  method MakeReport(jobStatus: JobStatus, typ: ConditionType, reason: string, message: string, now: int)
    returns (ghost r: Report)
    modifies jobStatus`conditions
    ensures r.typ == typ && r.reason == reason
    ensures jobStatus.conditions == UpdateAll(old(jobStatus.conditions), [r])
  {
    r := Report(typ, reason, message, now);
    assert UpdateAll(jobStatus.conditions, []) == jobStatus.conditions;
    jobStatus.UpdateJobConditions(Report(typ, reason, message, now));
  }

  method ReportRunning(t: ReplicaType, specs: map<ReplicaType, int>, statuses: map<ReplicaType, ReplicaStatus>,
                       jobStatus: JobStatus, now: int)
    returns (ghost reports: seq<Report>)
    requires t in specs && t in statuses
    modifies jobStatus`conditions
    ensures TypesOf(reports) == Running(t, statuses)
    ensures jobStatus.conditions == UpdateAll(old(jobStatus.conditions), reports)
  {
    reports := [];
    if t == Master || t == AIMaster {
      if statuses[t].active > 0 {
        ghost var r := MakeReport(jobStatus, JobRunning, "JobRunning", "is running", now);
        reports := [r];
      }
    }
  }

  method ReportSuccess(t: ReplicaType, specs: map<ReplicaType, int>, statuses: map<ReplicaType, ReplicaStatus>,
                       allWorkersSucceed: bool, jobStatus: JobStatus, now: int)
    returns (ghost reports: seq<Report>)
    requires t in specs && t in statuses && allWorkersSucceed == AllWorkersSucceed(specs, statuses)
    modifies jobStatus`conditions, jobStatus`completionTime
    ensures TypesOf(reports) == Success(t, specs, statuses)
    ensures jobStatus.conditions == UpdateAll(old(jobStatus.conditions), reports)
    ensures jobStatus.completionTime ==
      if old(jobStatus.completionTime) == None && Succeeds(t, specs, statuses) then Some(now)
      else old(jobStatus.completionTime)
  {
    reports := [];
    if t == Master || t == AIMaster {
      var expected := specs[t] - statuses[t].succeeded;
      var succeed := specs[t] > 0 && expected == 0;
      if t != AIMaster && Worker in specs {
        succeed := succeed && allWorkersSucceed;
      }
      if succeed {
        if jobStatus.completionTime == None {
          jobStatus.completionTime := Some(now);
        }
        ghost var r := MakeReport(jobStatus, JobSucceeded, "JobSucceeded", "is successfully completed", now);
        reports := [r];
      }
    }
  }

  method ReportFailure(t: ReplicaType, specs: map<ReplicaType, int>, statuses: map<ReplicaType, ReplicaStatus>,
                       jobStatus: JobStatus, restart: bool, now: int)
    returns (ghost reports: seq<Report>)
    requires t in specs && t in statuses
    modifies jobStatus`conditions, jobStatus`completionTime
    ensures TypesOf(reports) == Failure(t, specs, statuses, restart)
    ensures jobStatus.conditions == UpdateAll(old(jobStatus.conditions), reports)
    ensures jobStatus.completionTime ==
      if old(jobStatus.completionTime) == None && Fails(t, specs, statuses, restart) then Some(now)
      else old(jobStatus.completionTime)
  {
    reports := [];
    if statuses[t].failed > 0 {
      ghost var r;
      if restart && t != AIMaster {
        r := MakeReport(jobStatus, JobRestarting, "JobRestarting", "is restarting", now);
      } else {
        if jobStatus.completionTime == None {
          jobStatus.completionTime := Some(now);
        }
        r := MakeReport(jobStatus, JobFailed, "JobFailed", "is failed", now);
      }
      reports := [r];
    }
  }

  /** One round of the loop, for a type that has a status. */
  method ReportType(t: ReplicaType, specs: map<ReplicaType, int>, statuses: map<ReplicaType, ReplicaStatus>,
                    allWorkersSucceed: bool, jobStatus: JobStatus, restart: bool, now: int)
    returns (ghost reports: seq<Report>)
    requires t in specs && t in statuses && allWorkersSucceed == AllWorkersSucceed(specs, statuses)
    modifies jobStatus`conditions, jobStatus`completionTime
    ensures TypesOf(reports) == Reported(t, specs, statuses, restart)
    ensures jobStatus.conditions == UpdateAll(old(jobStatus.conditions), reports)
    ensures jobStatus.completionTime ==
      if old(jobStatus.completionTime) == None && Decides(t, specs, statuses, restart) then Some(now)
      else old(jobStatus.completionTime)
  {
    ghost var start := jobStatus.conditions;
    ghost var running := ReportRunning(t, specs, statuses, jobStatus, now);
    ghost var success := ReportSuccess(t, specs, statuses, allWorkersSucceed, jobStatus, now);
    ghost var failure := ReportFailure(t, specs, statuses, jobStatus, restart, now);
    UpdateAllConcat(start, running, success);
    UpdateAllConcat(start, running + success, failure);
    TypesConcat(running, success);
    TypesConcat(running + success, failure);
    reports := running + success + failure;
  }

  ghost predicate AnyDecides(order: seq<ReplicaType>, specs: map<ReplicaType, int>, statuses: map<ReplicaType, ReplicaStatus>,
                             restart: bool)
  {
    exists t :: t in order && Decides(t, specs, statuses, restart)
  }

  /** What the loop has done once it met the types in `order`. */
  ghost predicate LoopDid(order: seq<ReplicaType>, reports: seq<Report>, start: seq<Condition>, conditions: seq<Condition>,
                          specs: map<ReplicaType, int>, statuses: map<ReplicaType, ReplicaStatus>, restart: bool)
  {
    TypesOf(reports) == ReportedBy(order, specs, statuses, restart) && conditions == UpdateAll(start, reports)
  }

  lemma LoopStep(order: seq<ReplicaType>, reports: seq<Report>, start: seq<Condition>, conditions: seq<Condition>,
                 specs: map<ReplicaType, int>, statuses: map<ReplicaType, ReplicaStatus>, restart: bool,
                 t: ReplicaType, more: seq<Report>)
    requires LoopDid(order, reports, start, conditions, specs, statuses, restart)
    requires TypesOf(more) == Reported(t, specs, statuses, restart)
    ensures LoopDid(order + [t], reports + more, start, UpdateAll(conditions, more), specs, statuses, restart)
    ensures AnyDecides(order + [t], specs, statuses, restart) <==>
              AnyDecides(order, specs, statuses, restart) || Decides(t, specs, statuses, restart)
  {
    assert (order + [t])[..|order|] == order;
    UpdateAllConcat(start, reports, more);
    TypesConcat(reports, more);
    assert forall u :: u in order + [t] <==> u in order || u == t;
  }

  /** The loop; `remaining` is what the `range` over the map has not met yet. */
  method ReportAll(specs: map<ReplicaType, int>, statuses: map<ReplicaType, ReplicaStatus>, allWorkersSucceed: bool,
                   jobStatus: JobStatus, restart: bool, now: int)
    returns (err: bool, ghost order: seq<ReplicaType>, ghost reports: seq<Report>)
    requires allWorkersSucceed == AllWorkersSucceed(specs, statuses)
    modifies jobStatus`conditions, jobStatus`completionTime
    ensures err <==> Master !in specs && AIMaster !in specs && exists t :: t in specs && t in statuses
    ensures !err ==> IterationOrder(order, specs.Keys)
    ensures err ==> reports == []
    ensures LoopDid(order, reports, old(jobStatus.conditions), jobStatus.conditions, specs, statuses, restart)
    ensures jobStatus.completionTime ==
      if old(jobStatus.completionTime) == None && AnyDecides(order, specs, statuses, restart) then Some(now)
      else old(jobStatus.completionTime)
  {
    var remaining := specs.Keys;
    order, reports, err := [], [], false;
    ghost var start := jobStatus.conditions;
    while remaining != {}
      invariant remaining <= specs.Keys && IterationOrder(order, specs.Keys - remaining)
      invariant !HasMaster(specs) ==> (specs.Keys - remaining) * statuses.Keys == {} && reports == []
      invariant LoopDid(order, reports, start, jobStatus.conditions, specs, statuses, restart)
      invariant jobStatus.completionTime ==
        if old(jobStatus.completionTime) == None && AnyDecides(order, specs, statuses, restart) then Some(now)
        else old(jobStatus.completionTime)
    {
      var rtype :| rtype in remaining;
      ghost var more, conditions := [], jobStatus.conditions;
      if rtype in statuses {
        if !HasMaster(specs) {
          assert rtype in specs.Keys * statuses.Keys;
          return true, order, reports;
        }
        more := ReportType(rtype, specs, statuses, allWorkersSucceed, jobStatus, restart, now);
      }
      LoopStep(order, reports, start, conditions, specs, statuses, restart, rtype, more);
      NextInOrder(order, specs.Keys - remaining, rtype);
      order, reports := order + [rtype], reports + more;
      assert specs.Keys - (remaining - {rtype}) == specs.Keys - remaining + {rtype};
      remaining := remaining - {rtype};
    }
    assert specs.Keys - remaining == specs.Keys;
  }

  method UpdateGeneralJobStatus(specs: map<ReplicaType, int>, statuses: map<ReplicaType, ReplicaStatus>,
                                jobStatus: JobStatus, restart: bool, now: int)
    returns (err: bool, ghost order: seq<ReplicaType>, ghost reports: seq<Report>)
    modifies jobStatus
    ensures err <==> Master !in specs && AIMaster !in specs && exists t :: t in specs && t in statuses
    ensures !err ==> IterationOrder(order, specs.Keys)
    ensures err ==> reports == []
    ensures LoopDid(order, reports, old(jobStatus.conditions), jobStatus.conditions, specs, statuses, restart)
    ensures jobStatus.startTime == if old(jobStatus.startTime) == None then Some(now) else old(jobStatus.startTime)
    ensures jobStatus.completionTime ==
      if old(jobStatus.completionTime) == None && AnyDecides(order, specs, statuses, restart) then Some(now)
      else old(jobStatus.completionTime)
  {
    if jobStatus.startTime == None {
      jobStatus.startTime := Some(now);
    }
    var allWorkersSucceed := false;
    if Worker in specs {
      var succeed := 0;
      if Worker in statuses {
        succeed := statuses[Worker].succeeded;
      }
      allWorkersSucceed := specs[Worker] == succeed;
    }
    err, order, reports := ReportAll(specs, statuses, allWorkersSucceed, jobStatus, restart, now);
  }

  lemma NextInOrder(order: seq<ReplicaType>, met: set<ReplicaType>, t: ReplicaType)
    requires IterationOrder(order, met) && t !in met
    ensures IterationOrder(order + [t], met + {t})
  {
    assert forall u :: u in order + [t] <==> u in order || u == t;
    assert forall i :: 0 <= i < |order| ==> order[i] in order;
  }

  /** The verdict of an order. */

  function OwnVerdict(t: ReplicaType, specs: map<ReplicaType, int>, statuses: map<ReplicaType, ReplicaStatus>, restart: bool)
    : Option<ConditionType>
  {
    if Succeeds(t, specs, statuses) then Some(JobSucceeded)
    else if Fails(t, specs, statuses, restart) then Some(JobFailed)
    else None
  }

  function Decision(order: seq<ReplicaType>, specs: map<ReplicaType, int>, statuses: map<ReplicaType, ReplicaStatus>,
                    restart: bool): Option<ConditionType>
  {
    if order == [] then None
    else
      var before := Decision(order[..|order| - 1], specs, statuses, restart);
      if before.Some? then before else OwnVerdict(order[|order| - 1], specs, statuses, restart)
  }

  function FirstVerdict(types: seq<ConditionType>): Option<ConditionType> {
    if types == [] then None
    else
      var before := FirstVerdict(types[..|types| - 1]);
      if before.Some? then before
      else if Terminal(types[|types| - 1]) then Some(types[|types| - 1])
      else None
  }

  lemma {:induction false} FirstVerdictConcat(a: seq<ConditionType>, b: seq<ConditionType>)
    ensures FirstVerdict(a + b) == if FirstVerdict(a).Some? then FirstVerdict(a) else FirstVerdict(b)
  {
    if b == [] {
      assert a + b == a;
    } else {
      FirstVerdictConcat(a, b[..|b| - 1]);
      assert (a + b)[..|a + b| - 1] == a + b[..|b| - 1];
    }
  }

  lemma ReportedVerdict(t: ReplicaType, specs: map<ReplicaType, int>, statuses: map<ReplicaType, ReplicaStatus>, restart: bool)
    ensures FirstVerdict(Reported(t, specs, statuses, restart)) == OwnVerdict(t, specs, statuses, restart)
  {
    if t in specs && t in statuses {
      var running, success := Running(t, statuses), Success(t, specs, statuses);
      var failure := Failure(t, specs, statuses, restart);
      FirstVerdictConcat(running, success);
      FirstVerdictConcat(running + success, failure);
      VerdictOfOne(JobRunning);
      VerdictOfOne(JobSucceeded);
      VerdictOfOne(JobFailed);
      VerdictOfOne(JobRestarting);
    }
  }

  lemma VerdictOfOne(t: ConditionType)
    ensures FirstVerdict([t]) == if Terminal(t) then Some(t) else None
  {
    assert [t][..0] == [];
  }

  lemma {:induction false} DecisionIsFirstVerdict(order: seq<ReplicaType>, specs: map<ReplicaType, int>,
                                                  statuses: map<ReplicaType, ReplicaStatus>, restart: bool)
    ensures FirstVerdict(ReportedBy(order, specs, statuses, restart)) == Decision(order, specs, statuses, restart)
  {
    if order != [] {
      var front, t := order[..|order| - 1], order[|order| - 1];
      DecisionIsFirstVerdict(front, specs, statuses, restart);
      FirstVerdictConcat(ReportedBy(front, specs, statuses, restart), Reported(t, specs, statuses, restart));
      ReportedVerdict(t, specs, statuses, restart);
    }
  }

  lemma {:induction false} RunContinues(history: seq<Report>, reports: seq<Report>)
    ensures UpdateAll(Run(history), reports) == Run(history + reports)
  {
    if reports == [] {
      assert history + reports == history;
    } else {
      RunContinues(history, reports[..|reports| - 1]);
      assert (history + reports)[..|history + reports| - 1] == history + reports[..|reports| - 1];
    }
  }

  lemma {:induction false} VerdictContinues(history: seq<Report>, reports: seq<Report>)
    ensures FirstTerminal(history + reports) ==
      if FirstTerminal(history).Some? then FirstTerminal(history) else FirstVerdict(TypesOf(reports))
  {
    if reports == [] {
      assert history + reports == history;
    } else {
      var front := reports[..|reports| - 1];
      VerdictContinues(history, front);
      assert (history + reports)[..|history + reports| - 1] == history + front;
      assert TypesOf(reports)[..|reports| - 1] == TypesOf(front);
    }
  }

  /** From any reachable unfinished status: the pass finishes the job exactly as the first deciding type in map order says. */
  lemma PassDecides(history: seq<Report>, order: seq<ReplicaType>, reports: seq<Report>, conditions: seq<Condition>,
                    specs: map<ReplicaType, int>, statuses: map<ReplicaType, ReplicaStatus>, restart: bool)
    requires !Finished(Run(history))
    requires LoopDid(order, reports, Run(history), conditions, specs, statuses, restart)
    ensures Holds(conditions, JobSucceeded) <==> Decision(order, specs, statuses, restart) == Some(JobSucceeded)
    ensures Holds(conditions, JobFailed) <==> Decision(order, specs, statuses, restart) == Some(JobFailed)
  {
    RunContinues(history, reports);
    VerdictContinues(history, reports);
    DecisionIsFirstVerdict(order, specs, statuses, restart);
    RunMeaning(history);
    TerminalType(history);
    RunMeaning(history + reports);
  }

  lemma {:induction false} DecisionMeaning(order: seq<ReplicaType>, specs: map<ReplicaType, int>,
                                           statuses: map<ReplicaType, ReplicaStatus>, restart: bool)
    ensures Decision(order, specs, statuses, restart).None? ==>
              forall t :: t in order ==> OwnVerdict(t, specs, statuses, restart).None?
    ensures Decision(order, specs, statuses, restart).Some? ==>
              exists t :: t in order && OwnVerdict(t, specs, statuses, restart) == Decision(order, specs, statuses, restart)
  {
    if order != [] {
      var front, last := order[..|order| - 1], order[|order| - 1];
      DecisionMeaning(front, specs, statuses, restart);
      assert order == front + [last];
      assert last in order;
    }
  }

  /** What "complete" means for the pods behind the counters. */

  ghost predicate Complete(t: ReplicaType, specs: map<ReplicaType, int>, pods: map<ReplicaType, map<int, Pod>>) {
    t in specs && t in pods && forall j :: 0 <= j < specs[t] ==> j in pods[t] && pods[t][j].phase == Succeeded
  }

  ghost predicate CountedFrom(specs: map<ReplicaType, int>, statuses: map<ReplicaType, ReplicaStatus>,
                              pods: map<ReplicaType, map<int, Pod>>)
  {
    && specs.Keys <= pods.Keys
    && forall t :: t in specs && t in statuses ==> specs[t] >= 0 && statuses[t] == Tally(pods[t], specs[t])
  }

  lemma SucceedsIsComplete(t: ReplicaType, specs: map<ReplicaType, int>, statuses: map<ReplicaType, ReplicaStatus>,
                           pods: map<ReplicaType, map<int, Pod>>, restart: bool)
    requires CountedFrom(specs, statuses, pods) && Succeeds(t, specs, statuses)
    requires Worker in specs ==> specs[Worker] >= 0
    ensures Complete(t, specs, pods) && !Fails(t, specs, statuses, restart)
    ensures t == AIMaster || (t == Master && (Worker in specs ==> Complete(Worker, specs, pods)))
  {
    TallyMeaning(pods[t], specs[t]);
    if Worker in specs && Worker in statuses {
      TallyMeaning(pods[Worker], specs[Worker]);
    }
  }

  /**
   In every map order, a job that newly becomes Succeeded has all its AIMaster pods succeeded, or all its
   Master pods and, where workers are specified, all its worker pods.
   */
  lemma SuccessNeedsMaster(history: seq<Report>, order: seq<ReplicaType>, reports: seq<Report>,
                           conditions: seq<Condition>, specs: map<ReplicaType, int>,
                           statuses: map<ReplicaType, ReplicaStatus>, restart: bool, pods: map<ReplicaType, map<int, Pod>>)
    requires !Finished(Run(history)) && CountedFrom(specs, statuses, pods)
    requires LoopDid(order, reports, Run(history), conditions, specs, statuses, restart)
    requires Worker in specs ==> specs[Worker] >= 0
    requires Holds(conditions, JobSucceeded)
    ensures Complete(AIMaster, specs, pods)
            || (Complete(Master, specs, pods) && (Worker in specs ==> Complete(Worker, specs, pods)))
  {
    PassDecides(history, order, reports, conditions, specs, statuses, restart);
    DecisionMeaning(order, specs, statuses, restart);
    var t :| t in order && OwnVerdict(t, specs, statuses, restart) == Some(JobSucceeded);
    SucceedsIsComplete(t, specs, statuses, pods, restart);
  }

  /** When the order matters. */

  ghost predicate OrderMatters(specs: map<ReplicaType, int>, statuses: map<ReplicaType, ReplicaStatus>, restart: bool) {
    exists a, b :: Disagree(a, b, specs, statuses, restart)
  }

  ghost predicate Disagree(a: seq<ReplicaType>, b: seq<ReplicaType>, specs: map<ReplicaType, int>,
                           statuses: map<ReplicaType, ReplicaStatus>, restart: bool)
  {
    && IterationOrder(a, specs.Keys) && IterationOrder(b, specs.Keys)
    && Decision(a, specs, statuses, restart) != Decision(b, specs, statuses, restart)
  }

  ghost predicate Mixed(specs: map<ReplicaType, int>, statuses: map<ReplicaType, ReplicaStatus>, restart: bool) {
    && (exists t :: t in specs && OwnVerdict(t, specs, statuses, restart) == Some(JobSucceeded))
    && (exists t :: t in specs && OwnVerdict(t, specs, statuses, restart) == Some(JobFailed))
  }

  lemma {:induction false} OrderExtending(keys: set<ReplicaType>, front: seq<ReplicaType>) returns (order: seq<ReplicaType>)
    requires Distinct(front) && forall t :: t in front ==> t in keys
    ensures IterationOrder(order, keys) && |front| <= |order| && order[..|front|] == front
  {
    if t :| t in keys && t !in front {
      order := OrderExtending(keys - {t}, front);
      NextInOrder(order, keys - {t}, t);
      assert keys - {t} + {t} == keys;
      order := order + [t];
    } else {
      order := front;
    }
  }

  lemma {:induction false} FirstDecides(order: seq<ReplicaType>, specs: map<ReplicaType, int>,
                                        statuses: map<ReplicaType, ReplicaStatus>, restart: bool)
    requires order != [] && OwnVerdict(order[0], specs, statuses, restart).Some?
    ensures Decision(order, specs, statuses, restart) == OwnVerdict(order[0], specs, statuses, restart)
  {
    if |order| > 1 {
      FirstDecides(order[..|order| - 1], specs, statuses, restart);
    } else {
      assert Decision(order[..0], specs, statuses, restart).None?;
    }
  }

  /** Go's random map order can decide between success and failure exactly if one type succeeds while another fails. */
  lemma OrderMattersIffMixed(specs: map<ReplicaType, int>, statuses: map<ReplicaType, ReplicaStatus>, restart: bool)
    ensures OrderMatters(specs, statuses, restart) <==> Mixed(specs, statuses, restart)
  {
    if Mixed(specs, statuses, restart) {
      var t :| t in specs && OwnVerdict(t, specs, statuses, restart) == Some(JobSucceeded);
      var u :| u in specs && OwnVerdict(u, specs, statuses, restart) == Some(JobFailed);
      var a := OrderExtending(specs.Keys, [t]);
      var b := OrderExtending(specs.Keys, [u]);
      assert a[0] == a[..1][0] == t && b[0] == b[..1][0] == u;
      FirstDecides(a, specs, statuses, restart);
      FirstDecides(b, specs, statuses, restart);
      assert Disagree(a, b, specs, statuses, restart);
    }
    if OrderMatters(specs, statuses, restart) {
      var a, b :| Disagree(a, b, specs, statuses, restart);
      DecisionMeaning(a, specs, statuses, restart);
      DecisionMeaning(b, specs, statuses, restart);
    }
  }

  /** Such a state is real: AIMaster has succeeded and the only worker has failed, in a job that is not restarted. */
  lemma OrderCanMatter() returns (specs: map<ReplicaType, int>, statuses: map<ReplicaType, ReplicaStatus>,
                                  pods: map<ReplicaType, map<int, Pod>>)
    ensures CountedFrom(specs, statuses, pods) && specs.Keys == statuses.Keys
    ensures Mixed(specs, statuses, false) && OrderMatters(specs, statuses, false)
  {
    var succeeded := Pod(Succeeded, "", true, [], [], None);
    var failed := succeeded.(phase := Failed);
    specs := map[AIMaster := 1, Worker := 1];
    pods := map[AIMaster := map[0 := succeeded], Worker := map[0 := failed]];
    statuses := map[AIMaster := Tally(pods[AIMaster], 1), Worker := Tally(pods[Worker], 1)];
    TallyOne(pods[AIMaster]);
    TallyOne(pods[Worker]);
    assert statuses[AIMaster] == ReplicaStatus(0, 1, 0) && statuses[Worker] == ReplicaStatus(0, 0, 1);
    assert OwnVerdict(AIMaster, specs, statuses, false) == Some(JobSucceeded);
    assert OwnVerdict(Worker, specs, statuses, false) == Some(JobFailed);
    OrderMattersIffMixed(specs, statuses, false);
  }

  lemma TallyOne(pods: map<int, Pod>)
    requires 0 in pods
    ensures Tally(pods, 1) == Pods.Counted(ReplicaStatus(0, 0, 0), pods[0])
  {
    assert Tally(pods, 0) == ReplicaStatus(0, 0, 0);
  }
}
