/**
 Which of the conditions Running and Restarting a pass over a PyTorch job leaves (controllers/pytorch/status.go), and
 when Go's map order decides it. Elastic scaling is gated on Running.
 */
module PytorchActivity {
  import opened Common
  import opened Conditions
  import opened Pods
  import opened PytorchStatus

  /** The latest Running or Restarting among `types` that comes before a verdict. */
  function LastActivity(types: seq<ConditionType>): Option<ConditionType> {
    if types == [] then None
    else
      var front, t := types[..|types| - 1], types[|types| - 1];
      if FirstVerdict(front).None? && (t == JobRunning || t == JobRestarting) then Some(t) else LastActivity(front)
  }

  lemma {:induction false} LastActivityConcat(a: seq<ConditionType>, b: seq<ConditionType>)
    ensures LastActivity(a + b) ==
              if FirstVerdict(a).None? && LastActivity(b).Some? then LastActivity(b) else LastActivity(a)
  {
    if b == [] {
      assert a + b == a;
    } else {
      var front := b[..|b| - 1];
      LastActivityConcat(a, front);
      FirstVerdictConcat(a, front);
      assert (a + b)[..|a + b| - 1] == a + front;
    }
  }

  lemma LastActivityOfOne(t: ConditionType)
    ensures LastActivity([t]) == if t == JobRunning || t == JobRestarting then Some(t) else None
  {
    assert [t][..0] == [];
  }

  /** What the loop reports on the activity of one type before a verdict of its own. */
  function OwnActivity(t: ReplicaType, specs: map<ReplicaType, int>, statuses: map<ReplicaType, ReplicaStatus>, restart: bool)
    : Option<ConditionType>
  {
    if t !in specs || t !in statuses then None
    else if statuses[t].failed > 0 && !Decides(t, specs, statuses, restart) then Some(JobRestarting)
    else if (t == Master || t == AIMaster) && statuses[t].active > 0 then Some(JobRunning)
    else None
  }

  lemma ReportedActivity(t: ReplicaType, specs: map<ReplicaType, int>, statuses: map<ReplicaType, ReplicaStatus>, restart: bool)
    ensures LastActivity(Reported(t, specs, statuses, restart)) == OwnActivity(t, specs, statuses, restart)
  {
    if t in specs && t in statuses {
      var running, success := PytorchStatus.Running(t, statuses), Success(t, specs, statuses);
      var failure := Failure(t, specs, statuses, restart);
      LastActivityConcat(running, success);
      LastActivityConcat(running + success, failure);
      FirstVerdictConcat(running, success);
      VerdictOfOne(JobRunning);
      VerdictOfOne(JobSucceeded);
      LastActivityOfOne(JobRunning);
      LastActivityOfOne(JobSucceeded);
      LastActivityOfOne(JobFailed);
      LastActivityOfOne(JobRestarting);
    }
  }

  /** The activity that an order leaves: that of the last type with one, up to the first type that decides. */
  function Activity(order: seq<ReplicaType>, specs: map<ReplicaType, int>, statuses: map<ReplicaType, ReplicaStatus>,
                    restart: bool): Option<ConditionType>
  {
    if order == [] then None
    else
      var front, own := order[..|order| - 1], OwnActivity(order[|order| - 1], specs, statuses, restart);
      if Decision(front, specs, statuses, restart).None? && own.Some? then own
      else Activity(front, specs, statuses, restart)
  }

  lemma {:induction false} ActivityIsLast(order: seq<ReplicaType>, specs: map<ReplicaType, int>,
                                          statuses: map<ReplicaType, ReplicaStatus>, restart: bool)
    ensures LastActivity(ReportedBy(order, specs, statuses, restart)) == Activity(order, specs, statuses, restart)
  {
    if order != [] {
      var front, t := order[..|order| - 1], order[|order| - 1];
      ActivityIsLast(front, specs, statuses, restart);
      DecisionIsFirstVerdict(front, specs, statuses, restart);
      LastActivityConcat(ReportedBy(front, specs, statuses, restart), Reported(t, specs, statuses, restart));
      ReportedActivity(t, specs, statuses, restart);
    }
  }

  lemma LatestActivityAppend(reports: seq<Report>, r: Report)
    ensures LatestActivity(reports + [r]) ==
              if FirstTerminal(reports).None? && (r.typ == JobRunning || r.typ == JobRestarting) then Some(r.typ)
              else LatestActivity(reports)
  {
    assert (reports + [r])[..|reports|] == reports;
  }

  lemma LastActivityAppend(types: seq<ConditionType>, t: ConditionType)
    ensures LastActivity(types + [t]) ==
              if FirstVerdict(types).None? && (t == JobRunning || t == JobRestarting) then Some(t) else LastActivity(types)
  {
    assert (types + [t])[..|types|] == types;
  }

  lemma {:induction false} ActivityContinues(history: seq<Report>, reports: seq<Report>)
    requires FirstTerminal(history).None?
    ensures LatestActivity(history + reports) ==
              if LastActivity(TypesOf(reports)).Some? then LastActivity(TypesOf(reports)) else LatestActivity(history)
  {
    if reports == [] {
      assert history + reports == history;
    } else {
      var front, r := reports[..|reports| - 1], reports[|reports| - 1];
      ActivityContinues(history, front);
      VerdictContinues(history, front);
      LatestActivityAppend(history + front, r);
      LastActivityAppend(TypesOf(front), r.typ);
      assert history + reports == history + front + [r];
      assert TypesOf(reports) == TypesOf(front) + [r.typ];
    }
  }

  /** The activity after a pass in the given order; a job without master is a configuration error in every order. */
  function Left(order: seq<ReplicaType>, specs: map<ReplicaType, int>, statuses: map<ReplicaType, ReplicaStatus>,
                restart: bool, earlier: Option<ConditionType>): Option<ConditionType>
  {
    if HasMaster(specs) && Activity(order, specs, statuses, restart).Some?
    then Activity(order, specs, statuses, restart) else earlier
  }

  /** From any reachable unfinished status: which of Running and Restarting a pass leaves, and whether Running still holds. */
  lemma PassLeaves(history: seq<Report>, order: seq<ReplicaType>, reports: seq<Report>, conditions: seq<Condition>,
                   specs: map<ReplicaType, int>, statuses: map<ReplicaType, ReplicaStatus>, restart: bool)
    requires !Finished(Run(history)) && (HasMaster(specs) || reports == [])
    requires LoopDid(order, reports, Run(history), conditions, specs, statuses, restart)
    ensures var left := Left(order, specs, statuses, restart, LatestActivity(history));
      && (Lists(conditions, JobRunning) <==> left == Some(JobRunning))
      && (Lists(conditions, JobRestarting) <==> left == Some(JobRestarting))
      && (Holds(conditions, JobRunning) <==>
            left == Some(JobRunning) && (reports == [] || Decision(order, specs, statuses, restart).None?))
  {
    RunContinues(history, reports);
    VerdictContinues(history, reports);
    RunMeaning(history);
    TerminalType(history);
    ActivityContinues(history, reports);
    DecisionIsFirstVerdict(order, specs, statuses, restart);
    ActivityIsLast(order, specs, statuses, restart);
    RunMeaning(history + reports);
  }

  lemma {:induction false} ActivityMeaning(order: seq<ReplicaType>, specs: map<ReplicaType, int>,
                                           statuses: map<ReplicaType, ReplicaStatus>, restart: bool)
    ensures Activity(order, specs, statuses, restart).Some? ==>
              exists t :: t in order && OwnActivity(t, specs, statuses, restart) == Activity(order, specs, statuses, restart)
    ensures Decision(order, specs, statuses, restart).None? && Activity(order, specs, statuses, restart).None? ==>
              forall t :: t in order ==> OwnActivity(t, specs, statuses, restart).None?
    ensures Decision(order, specs, statuses, restart).Some? ==>
              exists d :: d in order && Decides(d, specs, statuses, restart)
                          && (OwnActivity(d, specs, statuses, restart).Some? ==>
                                Activity(order, specs, statuses, restart) == OwnActivity(d, specs, statuses, restart))
  {
    if order != [] {
      var front, last := order[..|order| - 1], order[|order| - 1];
      ActivityMeaning(front, specs, statuses, restart);
      assert order == front + [last];
      assert last in order;
    }
  }

  /** Nothing after a verdict changes the activity. */
  lemma {:induction false} FrozenActivity(order: seq<ReplicaType>, k: nat, specs: map<ReplicaType, int>,
                                          statuses: map<ReplicaType, ReplicaStatus>, restart: bool)
    requires k <= |order| && Decision(order[..k], specs, statuses, restart).Some?
    ensures Decision(order, specs, statuses, restart).Some?
    ensures Activity(order, specs, statuses, restart) == Activity(order[..k], specs, statuses, restart)
  {
    if k < |order| {
      var front := order[..|order| - 1];
      assert front[..k] == order[..k];
      FrozenActivity(front, k, specs, statuses, restart);
    } else {
      assert order[..k] == order;
    }
  }

  lemma OfTwo(t: ReplicaType, u: ReplicaType, specs: map<ReplicaType, int>, statuses: map<ReplicaType, ReplicaStatus>,
              restart: bool)
    ensures var own, own' := OwnActivity(t, specs, statuses, restart), OwnActivity(u, specs, statuses, restart);
      && Activity([t], specs, statuses, restart) == own
      && Activity([t, u], specs, statuses, restart)
         == if !Decides(t, specs, statuses, restart) && own'.Some? then own' else own
    ensures Decision([t], specs, statuses, restart) == OwnVerdict(t, specs, statuses, restart)
    ensures Decision([t, u], specs, statuses, restart).Some? <==>
              Decides(t, specs, statuses, restart) || Decides(u, specs, statuses, restart)
  {
    assert [t][..0] == [] && [t, u][..1] == [t];
    assert Decision([t], specs, statuses, restart) == OwnVerdict(t, specs, statuses, restart);
    assert Activity([t], specs, statuses, restart) == OwnActivity(t, specs, statuses, restart);
  }

  /** Some type decides. */
  ghost predicate Decided(specs: map<ReplicaType, int>, statuses: map<ReplicaType, ReplicaStatus>, restart: bool) {
    exists d :: d in specs && Decides(d, specs, statuses, restart)
  }

  ghost predicate Reports(x: Option<ConditionType>, specs: map<ReplicaType, int>, statuses: map<ReplicaType, ReplicaStatus>,
                          restart: bool)
  {
    exists t :: t in specs && OwnActivity(t, specs, statuses, restart) == x
  }

  /**
   Without a verdict: one type reports Running and another Restarting. With one: some deciding type reports no
   activity, and some type reports another activity than the one listed before.
   */
  ghost predicate ActivityMixed(specs: map<ReplicaType, int>, statuses: map<ReplicaType, ReplicaStatus>, restart: bool,
                                earlier: Option<ConditionType>)
  {
    HasMaster(specs) &&
    if !Decided(specs, statuses, restart) then
      Reports(Some(JobRunning), specs, statuses, restart) && Reports(Some(JobRestarting), specs, statuses, restart)
    else
      && (exists d :: d in specs && Decides(d, specs, statuses, restart) && OwnActivity(d, specs, statuses, restart).None?)
      && (exists t :: t in specs && OwnActivity(t, specs, statuses, restart).Some?
                      && OwnActivity(t, specs, statuses, restart) != earlier)
  }

  ghost predicate LeaveDifferently(a: seq<ReplicaType>, b: seq<ReplicaType>, specs: map<ReplicaType, int>,
                                   statuses: map<ReplicaType, ReplicaStatus>, restart: bool, earlier: Option<ConditionType>)
  {
    && IterationOrder(a, specs.Keys) && IterationOrder(b, specs.Keys)
    && Left(a, specs, statuses, restart, earlier) != Left(b, specs, statuses, restart, earlier)
  }

  /** Go's map order can decide which of Running and Restarting is listed exactly in a mixed state. */
  lemma ActivityOrderMattersIffMixed(specs: map<ReplicaType, int>, statuses: map<ReplicaType, ReplicaStatus>, restart: bool,
                                     earlier: Option<ConditionType>)
    ensures (exists a, b :: LeaveDifferently(a, b, specs, statuses, restart, earlier)) <==>
              ActivityMixed(specs, statuses, restart, earlier)
  {
    if a, b :| LeaveDifferently(a, b, specs, statuses, restart, earlier) {
      DifferentlyIsMixed(a, b, specs, statuses, restart, earlier);
    }
    if ActivityMixed(specs, statuses, restart, earlier) {
      var a, b;
      if Decided(specs, statuses, restart) {
        a, b := DecidedOrders(specs, statuses, restart, earlier);
      } else {
        var t :| t in specs && OwnActivity(t, specs, statuses, restart) == Some(JobRunning);
        var u :| u in specs && OwnActivity(u, specs, statuses, restart) == Some(JobRestarting);
        a := EndingIn(t, specs, statuses, restart);
        b := EndingIn(u, specs, statuses, restart);
      }
      assert LeaveDifferently(a, b, specs, statuses, restart, earlier);
    }
  }

  lemma DifferentlyIsMixed(a: seq<ReplicaType>, b: seq<ReplicaType>, specs: map<ReplicaType, int>,
                           statuses: map<ReplicaType, ReplicaStatus>, restart: bool, earlier: Option<ConditionType>)
    requires LeaveDifferently(a, b, specs, statuses, restart, earlier)
    ensures ActivityMixed(specs, statuses, restart, earlier)
  {
    ActivityMeaning(a, specs, statuses, restart);
    ActivityMeaning(b, specs, statuses, restart);
    DecisionMeaning(a, specs, statuses, restart);
    DecisionMeaning(b, specs, statuses, restart);
  }

  /** Without a verdict the type met last has the last word. */
  lemma EndingIn(t: ReplicaType, specs: map<ReplicaType, int>, statuses: map<ReplicaType, ReplicaStatus>, restart: bool)
    returns (order: seq<ReplicaType>)
    requires t in specs && OwnActivity(t, specs, statuses, restart).Some? && !Decided(specs, statuses, restart)
    ensures IterationOrder(order, specs.Keys)
    ensures Activity(order, specs, statuses, restart) == OwnActivity(t, specs, statuses, restart)
  {
    var front := OrderExtending(specs.Keys - {t}, []);
    NextInOrder(front, specs.Keys - {t}, t);
    assert specs.Keys - {t} + {t} == specs.Keys;
    DecisionMeaning(front, specs, statuses, restart);
    order := front + [t];
    assert order[..|order| - 1] == front;
  }

  /** With a verdict: one order meets a silent deciding type first, the other meets another activity before it. */
  lemma DecidedOrders(specs: map<ReplicaType, int>, statuses: map<ReplicaType, ReplicaStatus>, restart: bool,
                      earlier: Option<ConditionType>)
    returns (a: seq<ReplicaType>, b: seq<ReplicaType>)
    requires Decided(specs, statuses, restart) && ActivityMixed(specs, statuses, restart, earlier)
    ensures LeaveDifferently(a, b, specs, statuses, restart, earlier)
  {
    var d :| d in specs && Decides(d, specs, statuses, restart) && OwnActivity(d, specs, statuses, restart).None?;
    var t :| t in specs && OwnActivity(t, specs, statuses, restart).Some?
             && OwnActivity(t, specs, statuses, restart) != earlier;
    a := OrderExtending(specs.Keys, [d]);
    b := OrderExtending(specs.Keys, [t, d]);
    OfTwo(t, d, specs, statuses, restart);
    OfTwo(d, t, specs, statuses, restart);
    FrozenActivity(a, 1, specs, statuses, restart);
    FrozenActivity(b, 2, specs, statuses, restart);
  }

  /** Such a state is real, and a pass without verdict: an active master and a failed worker that is restarted. */
  lemma ActivityOrderCanMatter(earlier: Option<ConditionType>)
    returns (specs: map<ReplicaType, int>, statuses: map<ReplicaType, ReplicaStatus>, pods: map<ReplicaType, map<int, Pod>>)
    ensures CountedFrom(specs, statuses, pods) && specs.Keys == statuses.Keys
    ensures !Decided(specs, statuses, true) && !OrderMatters(specs, statuses, true)
    ensures Left([Master, Worker], specs, statuses, true, earlier) == Some(JobRestarting)
    ensures Left([Worker, Master], specs, statuses, true, earlier) == Some(JobRunning)
    ensures exists a, b :: LeaveDifferently(a, b, specs, statuses, true, earlier)
  {
    var active := Pod(Running, "", true, [], [], None);
    var failed := active.(phase := Failed);
    specs := map[Master := 1, Worker := 1];
    pods := map[Master := map[0 := active], Worker := map[0 := failed]];
    statuses := map[Master := Tally(pods[Master], 1), Worker := Tally(pods[Worker], 1)];
    TallyOne(pods[Master]);
    TallyOne(pods[Worker]);
    assert statuses[Master] == ReplicaStatus(1, 0, 0) && statuses[Worker] == ReplicaStatus(0, 0, 1);
    assert OwnActivity(Master, specs, statuses, true) == Some(JobRunning);
    assert OwnActivity(Worker, specs, statuses, true) == Some(JobRestarting);
    OrderMattersIffMixed(specs, statuses, true);
    OfTwo(Master, Worker, specs, statuses, true);
    OfTwo(Worker, Master, specs, statuses, true);
    ActivityOrderMattersIffMixed(specs, statuses, true, earlier);
  }

  /** The same on the counters alone. */

  /**
   Which passes finish a job, for every order of all types: some AIMaster, or some Master with all workers, has all its
   replicas succeeded; or some replica failed that is not restarted, as those of AIMaster never are.
   */
  lemma VerdictOnCounters(history: seq<Report>, order: seq<ReplicaType>, reports: seq<Report>, conditions: seq<Condition>,
                          specs: map<ReplicaType, int>, statuses: map<ReplicaType, ReplicaStatus>, restart: bool)
    requires !Finished(Run(history)) && IterationOrder(order, specs.Keys)
    requires LoopDid(order, reports, Run(history), conditions, specs, statuses, restart)
    ensures var allWorkers := Worker in specs ==> specs[Worker] == if Worker in statuses then statuses[Worker].succeeded else 0;
      var success := (AIMaster in specs && AIMaster in statuses
                      && specs[AIMaster] > 0 && statuses[AIMaster].succeeded == specs[AIMaster])
                     || (Master in specs && Master in statuses
                         && specs[Master] > 0 && statuses[Master].succeeded == specs[Master] && allWorkers);
      var failure := (exists t :: t in specs && t in statuses && statuses[t].failed > 0 && !restart)
                     || (AIMaster in specs && AIMaster in statuses && statuses[AIMaster].failed > 0);
      && (Finished(conditions) <==> success || failure)
      && (Holds(conditions, JobSucceeded) ==> success) && (Holds(conditions, JobFailed) ==> failure)
      && (AnyDecides(order, specs, statuses, restart) <==> success || failure)
  {
    PassDecides(history, order, reports, conditions, specs, statuses, restart);
    DecisionMeaning(order, specs, statuses, restart);
    if Succeeds(AIMaster, specs, statuses) {
      assert AIMaster in order && OwnVerdict(AIMaster, specs, statuses, restart).Some?;
    }
    if Succeeds(Master, specs, statuses) {
      assert Master in order && OwnVerdict(Master, specs, statuses, restart).Some?;
    }
    if t :| t in specs && t in statuses && statuses[t].failed > 0 && !restart {
      assert t in order && OwnVerdict(t, specs, statuses, restart).Some?;
    }
    if Fails(AIMaster, specs, statuses, restart) {
      assert AIMaster in order && OwnVerdict(AIMaster, specs, statuses, restart).Some?;
    }
    forall t | t in order && Decides(t, specs, statuses, restart) ensures OwnVerdict(t, specs, statuses, restart).Some? {
    }
    DecisionIsTerminal(order, specs, statuses, restart);
  }

  lemma {:induction false} DecisionIsTerminal(order: seq<ReplicaType>, specs: map<ReplicaType, int>,
                                              statuses: map<ReplicaType, ReplicaStatus>, restart: bool)
    ensures Decision(order, specs, statuses, restart) in {None, Some(JobSucceeded), Some(JobFailed)}
  {
    if order != [] {
      DecisionIsTerminal(order[..|order| - 1], specs, statuses, restart);
    }
  }

  /**
   Which activity a pass that finishes nothing leaves, where the order does not matter: Running if a Master or AIMaster
   pod is active and no replica failed, Restarting if one failed and no such pod is active, and what was there before if
   there is neither.
   */
  lemma ActivityOnCounters(history: seq<Report>, order: seq<ReplicaType>, reports: seq<Report>, conditions: seq<Condition>,
                           specs: map<ReplicaType, int>, statuses: map<ReplicaType, ReplicaStatus>, restart: bool)
    requires !Finished(Run(history)) && IterationOrder(order, specs.Keys) && HasMaster(specs)
    requires LoopDid(order, reports, Run(history), conditions, specs, statuses, restart) && !Finished(conditions)
    ensures var active := (Master in specs && Master in statuses && statuses[Master].active > 0)
                          || (AIMaster in specs && AIMaster in statuses && statuses[AIMaster].active > 0);
      var failed := exists t :: t in specs && t in statuses && statuses[t].failed > 0;
      && (active && !failed ==> Holds(conditions, JobRunning) && !Lists(conditions, JobRestarting))
      && (!active && failed ==> Lists(conditions, JobRestarting) && !Lists(conditions, JobRunning))
      && (!active && !failed ==>
            && (Lists(conditions, JobRunning) <==> Lists(Run(history), JobRunning))
            && (Lists(conditions, JobRestarting) <==> Lists(Run(history), JobRestarting)))
  {
    PassDecides(history, order, reports, conditions, specs, statuses, restart);
    PassLeaves(history, order, reports, conditions, specs, statuses, restart);
    DecisionIsTerminal(order, specs, statuses, restart);
    DecisionMeaning(order, specs, statuses, restart);
    ActivityMeaning(order, specs, statuses, restart);
    RunMeaning(history);
    if t :| t in specs && t in statuses && statuses[t].failed > 0 {
      assert t in order && OwnVerdict(t, specs, statuses, restart).None?;
      assert OwnActivity(t, specs, statuses, restart) == Some(JobRestarting);
    }
    if Master in specs {
      assert Master in order && OwnVerdict(Master, specs, statuses, restart).None?;
    }
    if AIMaster in specs {
      assert AIMaster in order && OwnVerdict(AIMaster, specs, statuses, restart).None?;
    }
  }
}
