/**
 The versioned checkpoint transaction of an elastic PyTorch job (controllers/pytorch/elastic_scale.go).

 The protocol is a transition system whose steps are single API-server operations of a controller pass,
 interleaved with AIMaster, user edits and evictions. A pass works on the job it read when it began and may
 fail or crash between any two operations. Module CheckpointController holds the code, every operation of which
 is one step of this system.
 */
module Checkpoint {
  import opened Common

  datatype CkptStatus = InProgress | CkptSucceeded | CkptFailed | NoStatus

  /** A version annotation: absent (or empty), not decodable, or decoded. */
  datatype Annotation = Absent | Malformed | Ckpt(version: int, status: CkptStatus)

  datatype Job = Job(
    generation: int,
    requested: Annotation,
    completed: Annotation,
    generationToIncrease: Option<int>,
    readyToStartWorker: bool,
    resourceVersion: nat)

  type PodId = nat

  datatype Event =
    | Triggered(version: int)
    | Completed(version: int)
    | Deleted(version: int, pod: PodId)
    | Bumped(version: int)
    | ScaleCalled

  /** Where the controller is in its pass; `snap` is the job it read. */
  datatype Controller =
    | Idle
    | Triggering(snap: Job)
    | Deleting(snap: Job, victims: set<PodId>)
    | Bumping(snap: Job)
    | Scaling

  datatype System = System(job: Job, victims: set<PodId>, controller: Controller, log: seq<Event>)

  /** CheckpointIfNecessary's decision. */
  datatype Decision = DecodeError | NothingToDo | Trigger | WindUp | Wait

  function Decide(job: Job, victims: set<PodId>): Decision {
    if job.requested == Malformed || job.completed == Malformed then DecodeError
    else if job.requested == Absent || (job.completed.Ckpt? && job.requested.version == job.completed.version) then
      if job.requested == Absent || job.requested.status == CkptSucceeded then
        if victims == {} then NothingToDo else Trigger
      else if job.requested.status == InProgress then WindUp
      else Wait
    else Wait
  }

  /** Steps of the controller. */

  ghost predicate Begin(s: System, s': System) {
    && s.controller == Idle
    && s' == s.(controller :=
         match Decide(s.job, s.victims)
         case NothingToDo => Scaling
         case Trigger => Triggering(s.job)
         case WindUp => Deleting(s.job, s.victims)
         case _ => Idle)
  }

  /** triggerJobCheckpoint: an unconditional merge patch with the generation read at the start of the pass. */
  ghost predicate TriggerPatch(s: System, s': System) {
    && s.controller.Triggering?
    && var version := Int32(s.controller.snap.generation);
    s' == s.(controller := Idle,
             job := s.job.(requested := Ckpt(version, InProgress), resourceVersion := s.job.resourceVersion + 1),
             log := s.log + [Triggered(version)])
  }

  /** One deletion of the fan-out in cleanupVictimPods. */
  ghost predicate DeleteVictim(s: System, s': System, pod: PodId) {
    && s.controller.Deleting? && pod in s.controller.victims && s.controller.snap.requested.Ckpt?
    && s' == s.(victims := s.victims - {pod},
                log := s.log + [Deleted(s.controller.snap.requested.version, pod)])
  }

  ghost predicate CleanupDone(s: System, s': System) {
    && s.controller.Deleting?
    && s' == s.(controller := Bumping(s.controller.snap))
  }

  /**
   increaseGenerationAndMarkAsSucceeded: a full update, accepted only if the job did not change since it was read.
   The API server raises the generation only when the spec really changes.
   */
  ghost predicate Bump(s: System, s': System) {
    && s.controller.Bumping? && s.controller.snap.requested.Ckpt?
    && s.job.resourceVersion == s.controller.snap.resourceVersion
    && s' == s.(controller := Scaling, job := BumpedJob(s.controller.snap),
                log := s.log + [Bumped(s.controller.snap.requested.version)])
  }

  function BumpedJob(snap: Job): Job
    requires snap.requested.Ckpt?
  {
    var next := snap.generation + 1;
    snap.(requested := snap.requested.(status := CkptSucceeded),
          readyToStartWorker := true,
          generation := if snap.generationToIncrease == Some(next) then snap.generation else next,
          generationToIncrease := Some(next),
          resourceVersion := snap.resourceVersion + 1)
  }

  /** ScaleOut or ScaleIn, reached only when CheckpointIfNecessary reported done; it may rewrite the ready annotation. */
  ghost predicate Scale(s: System, s': System) {
    && s.controller.Scaling?
    && s' == s.(controller := Idle, log := s.log + [ScaleCalled],
                job := s.job.(readyToStartWorker := s'.job.readyToStartWorker,
                              resourceVersion := s.job.resourceVersion + 1))
  }

  /** Any operation may fail, and the controller may crash or skip scaling: the pass is over. */
  ghost predicate Abandon(s: System, s': System) {
    s' == s.(controller := Idle)
  }

  /** Steps of the environment. */

  /** AIMaster acknowledges a version it was asked for at some time, possibly late or again. */
  ghost predicate Acknowledge(s: System, s': System) {
    exists version, status :: Triggered(version) in s.log &&
      s' == s.(job := s.job.(completed := Ckpt(version, status), resourceVersion := s.job.resourceVersion + 1),
               log := s.log + [Completed(version)])
  }

  /** The completion annotation may also become unreadable. */
  ghost predicate Garble(s: System, s': System) {
    s' == s.(job := s.job.(completed := Malformed, resourceVersion := s.job.resourceVersion + 1))
  }

  /** A user changes the spec, not touching the protocol's annotations. */
  ghost predicate UserEdit(s: System, s': System) {
    s' == s.(job := s.job.(generation := s.job.generation + 1, resourceVersion := s.job.resourceVersion + 1))
  }

  /** Pods are marked for eviction or disappear. */
  ghost predicate VictimsChange(s: System, s': System) {
    s' == s.(victims := s'.victims)
  }

  ghost predicate EnvStep(s: System, s': System) {
    Acknowledge(s, s') || Garble(s, s') || UserEdit(s, s') || VictimsChange(s, s')
  }

  ghost predicate ControllerStep(s: System, s': System) {
    || Begin(s, s') || TriggerPatch(s, s') || (exists pod :: DeleteVictim(s, s', pod)) || CleanupDone(s, s')
    || Bump(s, s') || Scale(s, s') || Abandon(s, s')
  }

  /** Versions are int32, so a run is considered as long as generations fit. */
  ghost predicate Step(s: System, s': System) {
    (EnvStep(s, s') || ControllerStep(s, s')) && s'.job.generation < 0x8000_0000
  }

  ghost predicate Init(s: System) {
    && s.job.requested == Absent && s.job.completed == Absent && s.job.generationToIncrease == None
    && 0 < s.job.generation < 0x8000_0000 && s.controller == Idle && s.log == []
  }

  function Last(run: seq<System>): System
    requires run != []
  {
    run[|run| - 1]
  }

  /** A run starts in an initial state, and each further state results from one step. */
  ghost predicate IsRun(run: seq<System>) {
    && run != []
    && var front := run[..|run| - 1];
    if front == [] then Init(Last(run)) else IsRun(front) && Step(Last(front), Last(run))
  }

  /** The discipline of the event history. */

  datatype Round = NoRound | Open(version: int) | Closed(version: int)

  function NextRound(r: Round, e: Event): Round {
    match e
    case Triggered(v) => Open(v)
    case Bumped(v) => Closed(v)
    case _ => r
  }

  /** The round after the first `n` events: opened by a trigger, closed by the generation bump of its version. */
  function RoundAt(log: seq<Event>, n: nat): Round
    requires n <= |log|
  {
    if n == 0 then NoRound else NextRound(RoundAt(log, n - 1), log[n - 1])
  }

  function RoundOf(log: seq<Event>): Round {
    RoundAt(log, |log|)
  }

  ghost predicate Before(log: seq<Event>, n: nat, e: Event) {
    exists k :: 0 <= k < n <= |log| && log[k] == e
  }

  /** Whether event `e` may happen after the first `n` events. */
  ghost predicate Allowed(log: seq<Event>, n: nat, e: Event)
    requires n <= |log|
  {
    var round := RoundAt(log, n);
    match e
    case Triggered(v) => round == NoRound || (round.Closed? && round.version < v)
    case Completed(v) => Before(log, n, Triggered(v))
    case Deleted(v, _) => round == Open(v) && Before(log, n, Completed(v))
    case Bumped(v) => round == Open(v) && Before(log, n, Completed(v))
    case ScaleCalled => !round.Open?
  }

  ghost predicate Disciplined(log: seq<Event>) {
    forall i {:trigger Allowed(log, i, log[i])} :: 0 <= i < |log| ==> Allowed(log, i, log[i])
  }

  lemma {:induction false} RoundOfPrefix(log: seq<Event>, e: Event, n: nat)
    requires n <= |log|
    ensures RoundAt(log + [e], n) == RoundAt(log, n)
  {
    if n > 0 {
      RoundOfPrefix(log, e, n - 1);
    }
  }

  lemma DisciplinedAppend(log: seq<Event>, e: Event)
    requires Disciplined(log) && Allowed(log, |log|, e)
    ensures Disciplined(log + [e])
    ensures RoundOf(log + [e]) == NextRound(RoundOf(log), e)
    ensures forall x :: x in log + [e] <==> x in log || x == e
  {
    var all := log + [e];
    RoundOfPrefix(log, e, |log|);
    forall i | 0 <= i < |all| ensures Allowed(all, i, all[i]) {
      RoundOfPrefix(log, e, i);
      assert forall x :: Before(log, i, x) ==> Before(all, i, x) by {
        assert forall k :: 0 <= k < |log| ==> all[k] == log[k];
      }
      assert Allowed(log, i, all[i]);
    }
  }

  /** The current round has the highest version ever triggered, and only triggered versions are completed. */
  lemma {:induction false} TriggeredBound(log: seq<Event>, n: nat, v: int)
    requires Disciplined(log) && n <= |log|
    ensures Before(log, n, Triggered(v)) ==> RoundAt(log, n) != NoRound && v <= RoundAt(log, n).version
    ensures Before(log, n, Completed(v)) ==> Before(log, n, Triggered(v))
  {
    if n > 0 {
      TriggeredBound(log, n - 1, v);
      assert Allowed(log, n - 1, log[n - 1]);
      if k :| 0 <= k < n && log[k] == Completed(v) {
        assert Allowed(log, k, log[k]);
      }
    }
  }

  lemma TriggeredBoundNow(log: seq<Event>, v: int)
    requires Disciplined(log) && Completed(v) in log
    ensures RoundOf(log) != NoRound && v <= RoundOf(log).version
  {
    TriggeredBound(log, |log|, v);
    assert Before(log, |log|, Completed(v));
  }

  /** The invariant of all reachable states. */

  ghost predicate JobInv(job: Job, log: seq<Event>) {
    && 0 < job.generation < 0x8000_0000
    && job.requested != Malformed
    && (job.requested == Absent ==> RoundOf(log) == NoRound)
    && (job.requested.Ckpt? ==>
          && job.requested.version <= job.generation
          && (job.requested.status == InProgress || job.requested.status == CkptSucceeded)
          && (job.requested.status == CkptSucceeded ==> job.requested.version < job.generation)
          && RoundOf(log) == if job.requested.status == InProgress then Open(job.requested.version)
                             else Closed(job.requested.version))
    && (job.completed.Ckpt? ==> Completed(job.completed.version) in log)
    && (job.generationToIncrease.Some? ==> job.generationToIncrease.value <= job.generation)
  }

  /** What a pass under way may rely on: its snapshot is at most outdated by environment steps. */
  ghost predicate SnapInv(snap: Job, job: Job, log: seq<Event>) {
    && JobInv(snap, log)
    && snap.requested == job.requested
    && snap.generation <= job.generation
    && snap.resourceVersion <= job.resourceVersion
    && (snap.resourceVersion == job.resourceVersion ==> snap == job)
  }

  ghost predicate ControllerInv(s: System) {
    match s.controller
    case Idle => true
    case Triggering(snap) => SnapInv(snap, s.job, s.log) && (snap.requested == Absent || snap.requested.status == CkptSucceeded)
    case Deleting(snap, _) => WindingUp(snap, s)
    case Bumping(snap) => WindingUp(snap, s)
    case Scaling => s.job.requested == Absent || (s.job.requested.Ckpt? && s.job.requested.status == CkptSucceeded)
  }

  ghost predicate WindingUp(snap: Job, s: System) {
    && SnapInv(snap, s.job, s.log)
    && snap.requested.Ckpt? && snap.requested.status == InProgress
    && Completed(snap.requested.version) in s.log
  }

  ghost predicate Inv(s: System) {
    Disciplined(s.log) && JobInv(s.job, s.log) && ControllerInv(s)
  }

  lemma BeginKeepsInv(s: System, s': System)
    requires Inv(s) && Begin(s, s')
    ensures Inv(s')
  {
  }

  lemma TriggerKeepsInv(s: System, s': System)
    requires Inv(s) && TriggerPatch(s, s')
    ensures Inv(s')
  {
    DisciplinedAppend(s.log, Triggered(Int32(s.controller.snap.generation)));
  }

  lemma DeleteKeepsInv(s: System, s': System, pod: PodId)
    requires Inv(s) && DeleteVictim(s, s', pod)
    ensures Inv(s')
  {
    DisciplinedAppend(s.log, Deleted(s.controller.snap.requested.version, pod));
  }

  lemma BumpKeepsInv(s: System, s': System)
    requires Inv(s) && Bump(s, s') && s'.job.generation < 0x8000_0000
    ensures Inv(s')
    ensures s'.job.generation == s.job.generation + 1
  {
    DisciplinedAppend(s.log, Bumped(s.controller.snap.requested.version));
  }

  lemma ScaleKeepsInv(s: System, s': System)
    requires Inv(s) && Scale(s, s')
    ensures Inv(s')
  {
    DisciplinedAppend(s.log, ScaleCalled);
  }

  lemma AcknowledgeKeepsInv(s: System, s': System)
    requires Inv(s) && Acknowledge(s, s')
    ensures Inv(s')
  {
    var version, status :| Triggered(version) in s.log &&
      s' == s.(job := s.job.(completed := Ckpt(version, status), resourceVersion := s.job.resourceVersion + 1),
               log := s.log + [Completed(version)]);
    DisciplinedAppend(s.log, Completed(version));
  }

  lemma EnvKeepsInv(s: System, s': System)
    requires Inv(s) && EnvStep(s, s') && s'.job.generation < 0x8000_0000
    ensures Inv(s')
  {
    if Acknowledge(s, s') {
      AcknowledgeKeepsInv(s, s');
    }
  }

  lemma ControllerKeepsInv(s: System, s': System)
    requires Inv(s) && ControllerStep(s, s') && s'.job.generation < 0x8000_0000
    ensures Inv(s')
  {
    if Begin(s, s') {
      BeginKeepsInv(s, s');
    } else if TriggerPatch(s, s') {
      TriggerKeepsInv(s, s');
    } else if pod :| DeleteVictim(s, s', pod) {
      DeleteKeepsInv(s, s', pod);
    } else if Bump(s, s') {
      BumpKeepsInv(s, s');
    } else if Scale(s, s') {
      ScaleKeepsInv(s, s');
    }
  }

  lemma StepKeepsInv(s: System, s': System)
    requires Inv(s) && Step(s, s')
    ensures Inv(s')
  {
    if EnvStep(s, s') {
      EnvKeepsInv(s, s');
    } else {
      ControllerKeepsInv(s, s');
    }
  }

  lemma {:induction false} RunKeepsInv(run: seq<System>)
    requires IsRun(run)
    ensures Inv(Last(run))
  {
    if |run| > 1 {
      var front := run[..|run| - 1];
      RunKeepsInv(front);
      StepKeepsInv(Last(front), Last(run));
    }
  }

  lemma {:induction false} RunPrefix(run: seq<System>, n: nat)
    requires IsRun(run) && 0 < n <= |run|
    ensures IsRun(run[..n])
    ensures n < |run| ==> Step(run[n - 1], run[n])
  {
    if n < |run| {
      var front := run[..|run| - 1];
      RunPrefix(front, n);
      assert front[..n] == run[..n];
    } else {
      assert run[..n] == run;
    }
  }

  lemma StateKeepsInv(run: seq<System>, i: nat)
    requires IsRun(run) && i < |run|
    ensures Inv(run[i])
  {
    RunPrefix(run, i + 1);
    RunKeepsInv(run[..i + 1]);
  }

  /**
   The version discipline, in every state of every run: completed <= requested <= generation, a finished request
   is older than the generation, and the next bump will really change the spec.
   */
  lemma VersionDiscipline(run: seq<System>, i: nat)
    requires IsRun(run) && i < |run|
    ensures var job := run[i].job;
      && job.requested != Malformed
      && (job.completed.Ckpt? ==> job.requested.Ckpt? && job.completed.version <= job.requested.version)
      && (job.requested.Ckpt? ==> job.requested.version <= job.generation)
      && (job.requested.Ckpt? && job.requested.status == CkptSucceeded ==> job.requested.version < job.generation)
      && job.generationToIncrease != Some(job.generation + 1)
  {
    StateKeepsInv(run, i);
    var job := run[i].job;
    if job.completed.Ckpt? {
      TriggeredBoundNow(run[i].log, job.completed.version);
    }
  }

  /** Each new request is newer than every earlier one and than the completion left from them. */
  lemma TriggerIsNewer(run: seq<System>, i: nat)
    requires IsRun(run) && i + 1 < |run| && TriggerPatch(run[i], run[i + 1])
    ensures var version := run[i + 1].job.requested.version;
      && (run[i].job.requested.Ckpt? ==> run[i].job.requested.version < version)
      && (run[i + 1].job.completed.Ckpt? ==> run[i + 1].job.completed.version < version)
      && run[i + 1].job.requested.status == InProgress
  {
    StateKeepsInv(run, i);
    var job := run[i].job;
    if job.completed.Ckpt? {
      TriggeredBoundNow(run[i].log, job.completed.version);
    }
  }

  /** Every history of a run obeys the discipline. */
  lemma HistoriesAreDisciplined(run: seq<System>, i: nat)
    requires IsRun(run) && i < |run|
    ensures Disciplined(run[i].log)
  {
    StateKeepsInv(run, i);
  }

  /** Consequences of the discipline, as statements about positions in the history. */

  /** Rounds only move forward. */
  lemma {:induction false} VersionsGrow(log: seq<Event>, x: nat, y: nat)
    requires Disciplined(log) && x <= y <= |log| && RoundAt(log, x) != NoRound
    ensures RoundAt(log, y) != NoRound && RoundAt(log, x).version <= RoundAt(log, y).version
  {
    if x < y {
      VersionsGrow(log, x, y - 1);
      assert Allowed(log, y - 1, log[y - 1]);
    }
  }

  /** An open round stays open until its own bump. */
  lemma {:induction false} OpenUntilBump(log: seq<Event>, x: nat, y: nat, v: int) returns (b: nat)
    requires Disciplined(log) && x <= y <= |log| && RoundAt(log, x) == Open(v)
    ensures RoundAt(log, y) == Open(v) || (x <= b < y && log[b] == Bumped(v))
  {
    b := x;
    if x < y {
      b := OpenUntilBump(log, x, y - 1, v);
      assert Allowed(log, y - 1, log[y - 1]);
      if RoundAt(log, y - 1) == Open(v) && log[y - 1] == Bumped(v) {
        b := y - 1;
      }
    }
  }

  /** Position of the trigger that opened the round open at `y`; neither a trigger nor a bump follows it. */
  lemma {:induction false} LastTrigger(log: seq<Event>, y: nat) returns (k: nat)
    requires y <= |log| && RoundAt(log, y).Open?
    ensures k < y && log[k] == Triggered(RoundAt(log, y).version)
    ensures forall m :: k < m < y ==> !log[m].Triggered? && !log[m].Bumped?
  {
    if log[y - 1].Triggered? {
      k := y - 1;
    } else {
      k := LastTrigger(log, y - 1);
    }
  }

  /** Every deletion answers a trigger of its own version that was acknowledged before the deletion. */
  lemma DeletionIsAcknowledged(log: seq<Event>, j: nat, w: int, pod: PodId) returns (k: nat, m: nat)
    requires Disciplined(log) && j < |log| && log[j] == Deleted(w, pod)
    ensures k < m < j && log[k] == Triggered(w) && log[m] == Completed(w)
    ensures forall x :: k < x < j ==> !log[x].Triggered? && !log[x].Bumped?
  {
    assert Allowed(log, j, log[j]);
    k := LastTrigger(log, j);
    m :| 0 <= m < j && log[m] == Completed(w);
    assert Allowed(log, m, log[m]);
    assert Allowed(log, k, log[k]);
    if m <= k {
      var t :| 0 <= t < m && log[t] == Triggered(w);
      assert Before(log, k, Triggered(w));
      TriggeredBound(log, k, w);
      assert false;
    }
  }

  /** Between deletions of two different rounds the first is bumped and the second triggered and acknowledged, in this order. */
  lemma DeletionsOfTwoRounds(log: seq<Event>, i: nat, j: nat, v: int, w: int, p: PodId, q: PodId)
    returns (b: nat, k: nat, m: nat)
    requires Disciplined(log) && i < j < |log| && log[i] == Deleted(v, p) && log[j] == Deleted(w, q) && v != w
    ensures v < w
    ensures i < b < k < m < j && log[b] == Bumped(v) && log[k] == Triggered(w) && log[m] == Completed(w)
  {
    assert Allowed(log, i, log[i]) && Allowed(log, j, log[j]);
    b := OpenUntilBump(log, i, j, v);
    k, m := DeletionIsAcknowledged(log, j, w, q);
    assert Allowed(log, k, log[k]);
    VersionsGrow(log, b + 1, k);
  }

  /** No scale call happens between a trigger and the bump of its version. */
  lemma NoScaleWhileOutstanding(log: seq<Event>, i: nat, j: nat, v: int) returns (b: nat)
    requires Disciplined(log) && i < j < |log| && log[i] == Triggered(v) && log[j] == ScaleCalled
    ensures i < b < j && log[b] == Bumped(v)
  {
    assert Allowed(log, j, log[j]);
    b := OpenUntilBump(log, i + 1, j, v);
  }

  /** While a request is outstanding no second one is triggered: a failed bump leads back to the second stage only. */
  lemma NoTriggerWhileOutstanding(log: seq<Event>, i: nat, j: nat, v: int, w: int) returns (b: nat)
    requires Disciplined(log) && i < j < |log| && log[i] == Triggered(v) && log[j] == Triggered(w)
    ensures v < w && i < b < j && log[b] == Bumped(v)
  {
    assert Allowed(log, j, log[j]);
    b := OpenUntilBump(log, i + 1, j, v);
    VersionsGrow(log, i + 1, j);
  }

  /** Progress: a failure-free round. */

  lemma AppendStep(run: seq<System>, s': System)
    requires IsRun(run) && Step(Last(run), s')
    ensures IsRun(run + [s'])
    ensures Last(run + [s']) == s'
  {
    assert (run + [s'])[..|run|] == run;
  }

  /** One failure-free deletion. */
  lemma DeleteOne(run: seq<System>, pod: PodId) returns (s': System)
    requires IsRun(run)
    requires var s := Last(run);
      s.controller.Deleting? && s.controller.snap.requested.Ckpt? && pod in s.controller.victims
    ensures IsRun(run + [s'])
    ensures s'.job == Last(run).job && s'.controller == Last(run).controller && s'.victims == Last(run).victims - {pod}
  {
    RunKeepsInv(run);
    var s := Last(run);
    s' := s.(victims := s.victims - {pod}, log := s.log + [Deleted(s.controller.snap.requested.version, pod)]);
    assert DeleteVictim(s, s', pod);
    AppendStep(run, s');
  }

  lemma {:induction false} DeleteAll(run: seq<System>) returns (run': seq<System>)
    requires IsRun(run)
    requires var s := Last(run);
      s.controller.Deleting? && s.controller.snap.requested.Ckpt? && s.victims <= s.controller.victims
    ensures IsRun(run') && run <= run'
    ensures Last(run').job == Last(run).job && Last(run').controller == Last(run).controller && Last(run').victims == {}
    decreases |Last(run).victims|
  {
    if Last(run).victims == {} {
      run' := run;
    } else {
      var pod :| pod in Last(run).victims;
      var s' := DeleteOne(run, pod);
      run' := DeleteAll(run + [s']);
    }
  }

  /** The state after a failure-free trigger and its acknowledgement. */
  lemma TriggerAndAcknowledge(run: seq<System>) returns (run': seq<System>)
    requires IsRun(run) && Last(run).controller == Idle && Last(run).victims != {}
    requires var job := Last(run).job;
      || (job.requested == Absent && job.completed != Malformed)
      || (job.requested.Ckpt? && job.requested.status == CkptSucceeded
          && job.completed.Ckpt? && job.completed.version == job.requested.version)
    ensures IsRun(run') && run <= run'
    ensures var s, s' := Last(run), Last(run');
      && s'.victims == s.victims && s'.controller == Idle
      && s'.job.requested == Ckpt(s.job.generation, InProgress) && s'.job.completed == Ckpt(s.job.generation, NoStatus)
      && s'.job.generation == s.job.generation
  {
    RunKeepsInv(run);
    var s0 := Last(run);
    var v := s0.job.generation;
    var s1 := s0.(controller := Triggering(s0.job));
    assert Begin(s0, s1);
    AppendStep(run, s1);
    var s2 := s1.(controller := Idle, log := s1.log + [Triggered(v)],
                  job := s1.job.(requested := Ckpt(v, InProgress), resourceVersion := s1.job.resourceVersion + 1));
    assert TriggerPatch(s1, s2);
    AppendStep(run + [s1], s2);
    var s3 := s2.(job := s2.job.(completed := Ckpt(v, NoStatus), resourceVersion := s2.job.resourceVersion + 1),
                  log := s2.log + [Completed(v)]);
    assert Triggered(v) in s2.log && Acknowledge(s2, s3);
    AppendStep(run + [s1] + [s2], s3);
    run' := run + [s1] + [s2] + [s3];
  }

  /** The failure-free second stage. */
  lemma WindUpRound(run: seq<System>) returns (run': seq<System>)
    requires IsRun(run) && Last(run).controller == Idle
    requires var job := Last(run).job;
      && job.requested.Ckpt? && job.requested.status == InProgress
      && job.completed.Ckpt? && job.completed.version == job.requested.version
    requires Last(run).job.generation + 1 < 0x8000_0000
    ensures IsRun(run') && run <= run'
    ensures var s, s' := Last(run), Last(run');
      && s'.victims == {} && s'.controller == Scaling
      && s'.job.generation == s.job.generation + 1
      && s'.job.requested == s.job.requested.(status := CkptSucceeded)
      && s'.job.readyToStartWorker
  {
    RunKeepsInv(run);
    var s0 := Last(run);
    var s1 := s0.(controller := Deleting(s0.job, s0.victims));
    assert Begin(s0, s1);
    AppendStep(run, s1);
    var deleted := DeleteAll(run + [s1]);
    RunKeepsInv(deleted);
    var s2 := Last(deleted);
    var s3 := s2.(controller := Bumping(s0.job));
    assert CleanupDone(s2, s3);
    AppendStep(deleted, s3);
    var s4 := s3.(controller := Scaling, job := BumpedJob(s0.job), log := s3.log + [Bumped(s0.job.requested.version)]);
    assert Bump(s3, s4);
    AppendStep(deleted + [s3], s4);
    run' := deleted + [s3] + [s4];
  }

  /**
   From any reachable idle state with victims and no outstanding request, two passes and one acknowledgement finish
   a round: the victims are gone, the generation is one higher and the workers may be restarted.
   */
  lemma RoundCompletes(run: seq<System>) returns (run': seq<System>)
    requires IsRun(run) && Last(run).controller == Idle && Last(run).victims != {}
    requires var job := Last(run).job;
      || (job.requested == Absent && job.completed != Malformed)
      || (job.requested.Ckpt? && job.requested.status == CkptSucceeded
          && job.completed.Ckpt? && job.completed.version == job.requested.version)
    requires Last(run).job.generation + 1 < 0x8000_0000
    ensures IsRun(run') && run <= run'
    ensures var s, s' := Last(run), Last(run');
      && s'.victims == {} && s'.controller == Scaling
      && s'.job.generation == s.job.generation + 1
      && s'.job.requested == Ckpt(s.job.generation, CkptSucceeded)
      && s'.job.readyToStartWorker
  {
    run' := TriggerAndAcknowledge(run);
    run' := WindUpRound(run');
  }

  /**
   From any reachable idle state without victims and without an outstanding request, a pass goes straight on to
   scaling and changes nothing.
   */
  lemma QuietPass(run: seq<System>) returns (s': System)
    requires IsRun(run) && Last(run).controller == Idle && Last(run).victims == {}
    requires var job := Last(run).job;
      || (job.requested == Absent && job.completed != Malformed)
      || (job.requested.Ckpt? && job.requested.status == CkptSucceeded
          && job.completed.Ckpt? && job.completed.version == job.requested.version)
    ensures IsRun(run + [s'])
    ensures s' == Last(run).(controller := Scaling)
  {
    RunKeepsInv(run);
    s' := Last(run).(controller := Scaling);
    assert Begin(Last(run), s');
    AppendStep(run, s');
  }

  /** Passes of a run. */

  /** A pass that read the job in state `k` is still under way in state `m`. */
  ghost predicate UnderWay(run: seq<System>, k: nat, m: nat) {
    && k < m < |run| && run[k].controller == Idle
    && forall x :: k < x <= m ==> run[x].controller != Idle
  }

  /** Which state a pass under way has read. */
  lemma {:induction false} PassStart(run: seq<System>, m: nat) returns (k: nat)
    requires IsRun(run) && m < |run| && run[m].controller != Idle
    ensures UnderWay(run, k, m)
  {
    if m == 0 {
      StartsIdle(run);
    } else if run[m - 1].controller == Idle {
      k := m - 1;
    } else {
      k := PassStart(run, m - 1);
    }
  }

  lemma {:induction false} StartsIdle(run: seq<System>)
    requires IsRun(run)
    ensures run[0].controller == Idle
  {
    if |run| > 1 {
      StartsIdle(run[..|run| - 1]);
    }
  }

  /** The system has left one pass and entered no other by an environment step. */
  lemma EnvKeepsController(s: System, s': System)
    requires EnvStep(s, s')
    ensures s'.controller == s.controller
  {
  }

  /**
   What a pass does, from the annotations and the victims it read. With a request that is not open: it triggers if
   there are victims, and goes on to scaling if there are none. With an acknowledged request: it winds the round up,
   and goes on to scaling only after the bump of that version. No other pass gets anywhere.
   */
  lemma {:induction false} PassMeaning(run: seq<System>, k: nat, m: nat)
    requires IsRun(run) && UnderWay(run, k, m)
    ensures var job, controller := run[k].job, run[m].controller;
      && job.requested != Malformed && job.completed != Malformed
      && (job.requested == Absent || (job.completed.Ckpt? && job.completed.version == job.requested.version))
      && (job.requested == Absent || job.requested.status == CkptSucceeded ==>
            controller == if run[k].victims != {} then Triggering(job) else Scaling)
      && (job.requested.Ckpt? && job.requested.status != CkptSucceeded ==>
            && job.requested.status == InProgress
            && (controller == Deleting(job, run[k].victims) || controller == Bumping(job)
                || (controller == Scaling && Bumped(job.requested.version) in run[m].log)))
  {
    RunPrefix(run, m);
    StateKeepsInv(run, k);
    if m > k + 1 {
      PassMeaning(run, k, m - 1);
    }
    if EnvStep(run[m - 1], run[m]) {
      EnvKeepsController(run[m - 1], run[m]);
    }
  }

  /** Every trigger in the history was patched by a step of the run. */
  lemma {:induction false} TriggeredByStep(run: seq<System>, j: nat) returns (i: nat)
    requires IsRun(run) && j < |Last(run).log| && Last(run).log[j].Triggered?
    ensures i + 1 < |run| && TriggerPatch(run[i], run[i + 1])
    ensures run[i + 1].log == Last(run).log[..j + 1]
  {
    var front := run[..|run| - 1];
    if front != [] && j < |Last(front).log| {
      assert Last(front).log <= Last(run).log;
      i := TriggeredByStep(front, j);
      assert Last(front).log[..j + 1] == Last(run).log[..j + 1];
    } else {
      i := |run| - 2;
    }
  }

  /** Each trigger in the history belongs to a pass that read a victim and no open request, and carries the generation it read. */
  lemma TriggerHasVictims(run: seq<System>, j: nat) returns (k: nat)
    requires IsRun(run) && j < |Last(run).log| && Last(run).log[j].Triggered?
    ensures k < |run| && run[k].controller == Idle && run[k].victims != {}
    ensures run[k].job.requested == Absent || (run[k].job.requested.Ckpt? && run[k].job.requested.status == CkptSucceeded)
    ensures Last(run).log[j].version == run[k].job.generation
    ensures run[k].log <= Last(run).log[..j]
  {
    var i := TriggeredByStep(run, j);
    k := PassStart(run, i);
    PassMeaning(run, k, i);
    StateKeepsInv(run, k);
    LogsGrow(run, k, i);
    assert run[i].log == Last(run).log[..j];
  }

  lemma {:induction false} LogsGrow(run: seq<System>, k: nat, m: nat)
    requires IsRun(run) && k <= m < |run|
    ensures run[k].log <= run[m].log
  {
    if k < m {
      LogsGrow(run, k, m - 1);
      RunPrefix(run, m);
    }
  }

  /** A pass that read victims and no open request never gets to scaling. */
  lemma VictimsHoldScaling(run: seq<System>, k: nat, m: nat)
    requires IsRun(run) && UnderWay(run, k, m) && run[k].victims != {}
    requires var requested := run[k].job.requested; requested == Absent || (requested.Ckpt? && requested.status == CkptSucceeded)
    ensures run[m].controller != Scaling
  {
    PassMeaning(run, k, m);
  }
}
