/**
 Passes over a job that has ended (pkg/job_controller/job.go): deletePodsAndServices, cleanupJob and the
 terminal branch of ReconcileJobs.
 */
module Cleanup {
  import opened Common
  import opened Conditions
  import Pods

  datatype CleanPodPolicy = CleanNone | CleanRunning | CleanAll

  datatype ListedPod = ListedPod(name: string, phase: Phase)

  predicate Eligible(policy: CleanPodPolicy, phase: Phase) {
    policy == CleanAll || (policy == CleanRunning && phase == Running)
  }

  /** Names of the pods among the first `n` that the policy lets go. */
  function EligibleNames(policy: CleanPodPolicy, pods: seq<ListedPod>, n: nat): set<string>
    requires n <= |pods|
  {
    if n == 0 then {}
    else
      var rest := EligibleNames(policy, pods, n - 1);
      if Eligible(policy, pods[n - 1].phase) then rest + {pods[n - 1].name} else rest
  }

  lemma {:induction false} EligibleNamesMeaning(policy: CleanPodPolicy, pods: seq<ListedPod>, n: nat)
    requires n <= |pods|
    ensures forall name :: name in EligibleNames(policy, pods, n) <==>
              exists i :: 0 <= i < n && pods[i].name == name && Eligible(policy, pods[i].phase)
  {
    if n > 0 {
      EligibleNamesMeaning(policy, pods, n - 1);
    }
  }

  /** Each listed pod exists in its phase, and is listed once. */
  ghost predicate ListsPods(listed: seq<ListedPod>, pods: map<string, Phase>) {
    && (forall i, j :: 0 <= i < j < |listed| ==> listed[i].name != listed[j].name)
    && (forall i :: 0 <= i < |listed| ==> listed[i].name in pods && pods[listed[i].name] == listed[i].phase)
  }

  ghost predicate Mentions(listed: seq<ListedPod>, name: string) {
    exists i :: 0 <= i < |listed| && listed[i].name == name
  }

  ghost predicate IsListing(listed: seq<ListedPod>, pods: map<string, Phase>) {
    && ListsPods(listed, pods)
    && (forall name {:trigger Mentions(listed, name)} :: name in pods ==> Mentions(listed, name))
  }

  lemma NotYetGone(policy: CleanPodPolicy, listed: seq<ListedPod>, pods: map<string, Phase>, before: map<string, Phase>, i: nat)
    requires ListsPods(listed, before) && i < |listed| && pods == before - EligibleNames(policy, listed, i)
    ensures listed[i].name in pods && listed[i].name !in EligibleNames(policy, listed, i)
  {
    EligibleNamesMeaning(policy, listed, i);
  }

  /**
   What the deletion loop has done when it stopped before `listed[stop]` was done with, or at the end of the list.
   `podGone` says that this pod was deleted and its service was the problem.
   */
  ghost predicate CleanedUp(policy: CleanPodPolicy, listed: seq<ListedPod>, pods: map<string, Phase>, services: set<string>,
                            pods': map<string, Phase>, services': set<string>, stop: nat, podGone: bool)
  {
    && stop <= |listed| && (stop < |listed| ==> Eligible(policy, listed[stop].phase)) && (podGone ==> stop < |listed|)
    && var gone := EligibleNames(policy, listed, stop);
    && gone <= services
    && services' == services - gone
    && pods' == pods - (if podGone then gone + {listed[stop].name} else gone)
  }

  /** The policy lets the pod go, and a call for it or its service fails. */
  predicate CallFails(policy: CleanPodPolicy, p: ListedPod, services: set<string>, podFails: set<string>, serviceFails: set<string>) {
    Eligible(policy, p.phase) && (p.name in podFails || p.name in serviceFails || p.name !in services)
  }

  /** The first listed pod with a failing call. */
  function FirstFailing(policy: CleanPodPolicy, listed: seq<ListedPod>, services: set<string>, podFails: set<string>,
                        serviceFails: set<string>): (k: nat)
    ensures k <= |listed|
    ensures k < |listed| ==> CallFails(policy, listed[k], services, podFails, serviceFails)
    ensures forall j :: 0 <= j < k ==> !CallFails(policy, listed[j], services, podFails, serviceFails)
  {
    if listed == [] || CallFails(policy, listed[0], services, podFails, serviceFails) then 0
    else 1 + FirstFailing(policy, listed[1..], services, podFails, serviceFails)
  }

  lemma FirstFailingIs(policy: CleanPodPolicy, listed: seq<ListedPod>, services: set<string>, podFails: set<string>,
                       serviceFails: set<string>, k: nat)
    requires k <= |listed|
    requires k < |listed| ==> CallFails(policy, listed[k], services, podFails, serviceFails)
    requires forall j :: 0 <= j < k ==> !CallFails(policy, listed[j], services, podFails, serviceFails)
    ensures k == FirstFailing(policy, listed, services, podFails, serviceFails)
  {
  }

  /** Where the loop stops: at the first failing call, that for the pod or else that for its service. */
  predicate StopsFor(policy: CleanPodPolicy, listed: seq<ListedPod>, services: set<string>, stop: nat, podGone: bool,
                     podFails: set<string>, serviceFails: set<string>)
  {
    && stop == FirstFailing(policy, listed, services, podFails, serviceFails)
    && (stop < |listed| ==> (podGone <==> listed[stop].name !in podFails))
  }

  /** Pods by name, and the names of the services. A pod and its service have one name. */
  class Cluster {
    var pods: map<string, Phase>
    var services: set<string>

    method DeletePod(name: string, fails: bool) returns (err: bool)
      modifies this`pods
      ensures err <==> fails || name !in old(pods)
      ensures pods == if err then old(pods) else old(pods) - {name}
    {
      err := fails || name !in pods;
      if !err {
        pods := pods - {name};
      }
    }

    method DeleteService(name: string, fails: bool) returns (err: bool)
      modifies this`services
      ensures err <==> fails || name !in old(services)
      ensures services == if err then old(services) else old(services) - {name}
    {
      err := fails || name !in services;
      if !err {
        services := services - {name};
      }
    }

    /** A pod, and then its service. */
    method DeletePair(name: string, podFails: bool, serviceFails: bool) returns (err: bool, ghost podGone: bool)
      requires name in pods
      modifies this
      ensures pods == if podFails then old(pods) else old(pods) - {name}
      ensures services == if err then old(services) else old(services) - {name}
      ensures err <==> podFails || serviceFails || name !in old(services)
      ensures podGone <==> err && !podFails
    {
      podGone := false;
      err := DeletePod(name, podFails);
      if err {
        return;
      }
      err := DeleteService(name, serviceFails);
      podGone := err;
    }

    /** One round of the loop. */
    method HandlePod(policy: CleanPodPolicy, listed: seq<ListedPod>, i: nat, podFails: set<string>, serviceFails: set<string>,
                     ghost before: map<string, Phase>, ghost listedServices: set<string>)
      returns (err: bool, ghost podGone: bool)
      requires policy != CleanNone && ListsPods(listed, before) && i < |listed|
      requires pods == before - EligibleNames(policy, listed, i)
      requires services == listedServices - EligibleNames(policy, listed, i)
      modifies this
      ensures err <==> CallFails(policy, listed[i], listedServices, podFails, serviceFails)
      ensures podGone <==> err && listed[i].name !in podFails
      ensures !err ==>
        && EligibleNames(policy, listed, i + 1) - EligibleNames(policy, listed, i) <= listedServices
        && pods == before - EligibleNames(policy, listed, i + 1)
        && services == listedServices - EligibleNames(policy, listed, i + 1)
      ensures err ==>
        && services == old(services)
        && pods == if podGone then before - (EligibleNames(policy, listed, i) + {listed[i].name}) else old(pods)
    {
      NotYetGone(policy, listed, pods, before, i);
      if policy == CleanRunning && listed[i].phase != Running {
        return false, false;
      }
      err, podGone := DeletePair(listed[i].name, listed[i].name in podFails, listed[i].name in serviceFails);
    }

    method DeletePodsAndServices(policy: CleanPodPolicy, listed: seq<ListedPod>, podFails: set<string>,
                                 serviceFails: set<string>)
      returns (err: bool, ghost stop: nat, ghost podGone: bool)
      requires ListsPods(listed, pods)
      modifies this
      ensures err <==> stop < |listed|
      ensures CleanedUp(policy, listed, old(pods), old(services), pods, services, stop, podGone)
      ensures StopsFor(policy, listed, old(services), stop, podGone, podFails, serviceFails)
    {
      stop, podGone, err := 0, false, false;
      ghost var listedServices := services;
      if |listed| == 0 {
        return;
      }
      if policy == CleanNone {
        stop := |listed|;
        FirstFailingIs(policy, listed, services, podFails, serviceFails, stop);
        NothingEligible(listed, |listed|);
        return;
      }
      for i := 0 to |listed|
        invariant !err && !podGone && stop == i
        invariant EligibleNames(policy, listed, i) <= old(services)
        invariant services == old(services) - EligibleNames(policy, listed, i)
        invariant pods == old(pods) - EligibleNames(policy, listed, i)
        invariant forall j :: 0 <= j < i ==> !CallFails(policy, listed[j], listedServices, podFails, serviceFails)
      {
        err, podGone := HandlePod(policy, listed, i, podFails, serviceFails, old(pods), listedServices);
        if err {
          FirstFailingIs(policy, listed, listedServices, podFails, serviceFails, i);
          return;
        }
        stop := i + 1;
      }
      FirstFailingIs(policy, listed, listedServices, podFails, serviceFails, |listed|);
    }
  }

  lemma {:induction false} NothingEligible(pods: seq<ListedPod>, n: nat)
    requires n <= |pods|
    ensures EligibleNames(CleanNone, pods, n) == {}
  {
    if n > 0 {
      NothingEligible(pods, n - 1);
    }
  }

  /** Runs of passes. */

  ghost function EligibleIn(policy: CleanPodPolicy, pods: map<string, Phase>): set<string> {
    set name | name in pods && Eligible(policy, pods[name])
  }

  /** What a pass does to the pods when the API server refuses no deletion of a pod. */
  ghost predicate PodPass(policy: CleanPodPolicy, listed: seq<ListedPod>, before: map<string, Phase>,
                          after: map<string, Phase>, err: bool, stop: nat)
  {
    && IsListing(listed, before) && (err <==> stop < |listed|)
    && exists services, services' :: CleanedUp(policy, listed, before, services, after, services', stop, err)
  }

  /** An aborted pass has removed an eligible pod and no other; a complete one has removed them all. */
  lemma PassProgress(policy: CleanPodPolicy, listed: seq<ListedPod>, before: map<string, Phase>, after: map<string, Phase>,
                     err: bool, stop: nat)
    requires PodPass(policy, listed, before, after, err, stop)
    ensures EligibleIn(policy, after) <= EligibleIn(policy, before)
    ensures before.Keys - after.Keys == EligibleIn(policy, before) - EligibleIn(policy, after)
    ensures if err then EligibleIn(policy, after) < EligibleIn(policy, before) else EligibleIn(policy, after) == {}
  {
    EligibleNamesMeaning(policy, listed, stop);
    var services, services' :| CleanedUp(policy, listed, before, services, after, services', stop, err);
    if err {
      assert listed[stop].name in EligibleIn(policy, before);
      assert listed[stop].name !in EligibleIn(policy, after);
    }
    forall name | name in before ensures Mentions(listed, name) {
    }
    forall name | name in before.Keys - after.Keys ensures name in EligibleIn(policy, before) {
    }
  }

  /** An aborted pass, and phase changes until the next one that make no further pod eligible. */
  ghost predicate AbortedRound(policy: CleanPodPolicy, before: map<string, Phase>, next: map<string, Phase>) {
    exists listed, after, stop :: PodPass(policy, listed, before, after, true, stop) && NoneAdded(policy, after, next)
  }

  ghost predicate NoneAdded(policy: CleanPodPolicy, after: map<string, Phase>, next: map<string, Phase>) {
    EligibleIn(policy, next) <= EligibleIn(policy, after)
  }

  /** So clean-up ends in at most one more pass than there are eligible pods. */
  lemma {:induction false} AbortsAreBounded(policy: CleanPodPolicy, states: seq<map<string, Phase>>)
    requires states != []
    requires forall k: nat :: k + 1 < |states| ==> AbortedRound(policy, states[k], states[k + 1])
    ensures |EligibleIn(policy, states[|states| - 1])| + |states| - 1 <= |EligibleIn(policy, states[0])|
  {
    var n := |states| - 1;
    if n > 0 {
      var front := states[..n];
      forall k: nat | k + 1 < |front| ensures AbortedRound(policy, front[k], front[k + 1]) {
        assert AbortedRound(policy, states[k], states[k + 1]);
      }
      AbortsAreBounded(policy, front);
      assert AbortedRound(policy, states[n - 1], states[n - 1 + 1]);
      var listed, after, stop :| PodPass(policy, listed, states[n - 1], after, true, stop)
                                 && NoneAdded(policy, after, states[n]);
      PassProgress(policy, listed, states[n - 1], after, true, stop);
      Pods.SubsetSize(EligibleIn(policy, states[n]), EligibleIn(policy, states[n - 1]));
    }
  }

  /** Services left behind. */

  datatype Objects = Objects(pods: map<string, Phase>, services: set<string>)

  datatype PassRecord = PassRecord(
    listed: seq<ListedPod>, stop: nat, podGone: bool, podFails: set<string>, serviceFails: set<string>)

  ghost predicate PassOf(policy: CleanPodPolicy, o: Objects, r: PassRecord, o': Objects) {
    && IsListing(r.listed, o.pods)
    && CleanedUp(policy, r.listed, o.pods, o.services, o'.pods, o'.services, r.stop, r.podGone)
    && StopsFor(policy, r.listed, o.services, r.stop, r.podGone, r.podFails, r.serviceFails)
  }

  predicate Orphaned(o: Objects, name: string) {
    name !in o.pods && name in o.services
  }

  /** The first failing call of the pass is the one for the service `name`. */
  predicate Orphans(policy: CleanPodPolicy, o: Objects, r: PassRecord, name: string) {
    var k := FirstFailing(policy, r.listed, o.services, r.podFails, r.serviceFails);
    k < |r.listed| && r.listed[k].name == name && name !in r.podFails && name in r.serviceFails
  }

  /** One pass orphans the service of an existing pod exactly if it stops at this service, the call for it failing. */
  lemma OrphanedIff(policy: CleanPodPolicy, o: Objects, r: PassRecord, o': Objects, name: string)
    requires PassOf(policy, o, r, o') && name in o.pods && name in o.services
    ensures Orphaned(o', name) <==> Orphans(policy, o, r, name)
    ensures Orphans(policy, o, r, name) <==> r.podGone && r.listed[r.stop].name == name
    ensures name in o'.pods ==> name in o'.services
  {
    EligibleNamesMeaning(policy, r.listed, r.stop);
  }

  /** An orphaned service outlives every further pass. */
  lemma OrphanedStays(policy: CleanPodPolicy, o: Objects, r: PassRecord, o': Objects, name: string)
    requires PassOf(policy, o, r, o') && name !in o.pods
    ensures name !in o'.pods && (name in o'.services <==> name in o.services) && !Orphans(policy, o, r, name)
  {
    EligibleNamesMeaning(policy, r.listed, r.stop);
  }

  /** Passes one after the other; between them only phases change. */
  ghost predicate PassesOf(policy: CleanPodPolicy, starts: seq<Objects>, records: seq<PassRecord>, ends: seq<Objects>) {
    && |starts| == |records| == |ends|
    && (forall k :: 0 <= k < |records| ==> PassOf(policy, starts[k], records[k], ends[k]))
    && (forall k: nat :: k + 1 < |records| ==> SameNames(ends[k], starts[k + 1]))
  }

  ghost predicate SameNames(o: Objects, o': Objects) {
    o'.pods.Keys == o.pods.Keys && o'.services == o.services
  }

  ghost predicate OrphansBy(policy: CleanPodPolicy, starts: seq<Objects>, records: seq<PassRecord>, k: nat, name: string)
    requires |starts| == |records|
  {
    exists m :: 0 <= m <= k && m < |records| && Orphans(policy, starts[m], records[m], name)
  }

  lemma {:induction false} OrphanedByThen(policy: CleanPodPolicy, starts: seq<Objects>, records: seq<PassRecord>,
                                          ends: seq<Objects>, k: nat, name: string)
    requires PassesOf(policy, starts, records, ends) && k < |records|
    requires name in starts[0].pods && name in starts[0].services
    ensures Orphaned(ends[k], name) <==> OrphansBy(policy, starts, records, k, name)
    ensures name in ends[k].pods ==> name in ends[k].services
  {
    if k > 0 {
      OrphanedByThen(policy, starts, records, ends, k - 1, name);
    }
    PassStep(policy, starts, records, ends, k, name);
    OneMoreRecord(policy, starts, records, k, name);
  }

  lemma PassStep(policy: CleanPodPolicy, starts: seq<Objects>, records: seq<PassRecord>, ends: seq<Objects>, k: nat,
                 name: string)
    requires PassesOf(policy, starts, records, ends) && k < |records|
    ensures var before := if k == 0 then starts[0] else ends[k - 1];
      (name in before.pods ==> name in before.services) ==>
        && (Orphaned(ends[k], name) <==> Orphaned(before, name) || Orphans(policy, starts[k], records[k], name))
        && (name in ends[k].pods ==> name in ends[k].services)
  {
    var before := if k == 0 then starts[0] else ends[k - 1];
    if name in before.pods ==> name in before.services {
      assert PassOf(policy, starts[k], records[k], ends[k]);
      assert k > 0 ==> SameNames(ends[k - 1], starts[k - 1 + 1]);
      OneMorePass(policy, before, starts[k], records[k], ends[k], name);
    }
  }

  lemma OneMorePass(policy: CleanPodPolicy, before: Objects, o: Objects, r: PassRecord, o': Objects, name: string)
    requires SameNames(before, o) && PassOf(policy, o, r, o')
    requires name in before.pods ==> name in before.services
    ensures Orphaned(o', name) <==> Orphaned(before, name) || Orphans(policy, o, r, name)
    ensures name in o'.pods ==> name in o'.services
  {
    if name in o.pods {
      OrphanedIff(policy, o, r, o', name);
    } else {
      OrphanedStays(policy, o, r, o', name);
    }
  }

  lemma OneMoreRecord(policy: CleanPodPolicy, starts: seq<Objects>, records: seq<PassRecord>, k: nat, name: string)
    requires |starts| == |records| && k < |records|
    ensures OrphansBy(policy, starts, records, k, name) <==>
              (k > 0 && OrphansBy(policy, starts, records, k - 1, name)) || Orphans(policy, starts[k], records[k], name)
  {
    if OrphansBy(policy, starts, records, k, name) {
      var m :| 0 <= m <= k && Orphans(policy, starts[m], records[m], name);
      assert m < k ==> OrphansBy(policy, starts, records, k - 1, name);
    }
  }

  /**
   Clean-up that ends with a complete pass, the pod being eligible then if it still exists, leaves its service
   behind exactly if some pass deleted the pod and failed to delete the service.
   */
  lemma ServiceLeftIff(policy: CleanPodPolicy, starts: seq<Objects>, records: seq<PassRecord>, ends: seq<Objects>,
                       name: string)
    requires PassesOf(policy, starts, records, ends) && records != []
    requires name in starts[0].pods && name in starts[0].services
    requires var last := |records| - 1;
      && records[last].stop == |records[last].listed|
      && (name in starts[last].pods ==> Eligible(policy, starts[last].pods[name]))
    ensures var last := |records| - 1;
      && name !in ends[last].pods
      && (name in ends[last].services <==> OrphansBy(policy, starts, records, last, name))
  {
    var last := |records| - 1;
    OrphanedByThen(policy, starts, records, ends, last, name);
    assert PassOf(policy, starts[last], records[last], ends[last]);
    CompleteRemoves(policy, starts[last], records[last], ends[last], name);
  }

  lemma CompleteRemoves(policy: CleanPodPolicy, o: Objects, r: PassRecord, o': Objects, name: string)
    requires PassOf(policy, o, r, o') && r.stop == |r.listed|
    requires name in o.pods ==> Eligible(policy, o.pods[name])
    ensures name !in o'.pods
  {
    EligibleNamesMeaning(policy, r.listed, r.stop);
    if name in o.pods {
      assert Mentions(r.listed, name);
      var i :| 0 <= i < |r.listed| && r.listed[i].name == name;
      assert Eligible(policy, r.listed[i].phase);
    }
  }

  /** On phases: None keeps every pod, Running takes the running ones alone, and All takes all. */

  ghost predicate SurvivesPolicy(policy: CleanPodPolicy, phase: Phase) {
    match policy
    case CleanNone => true
    case CleanRunning => phase in {Pending, Succeeded, Failed, UnknownPhase}
    case CleanAll => false
  }

  /** A complete pass leaves exactly the pods that survive the policy, and takes the services of the others. */
  lemma CompletePassLeaves(policy: CleanPodPolicy, o: Objects, r: PassRecord, o': Objects)
    requires PassOf(policy, o, r, o') && r.stop == |r.listed|
    ensures forall name :: name in o'.pods <==> name in o.pods && SurvivesPolicy(policy, o.pods[name])
    ensures forall name :: name in o'.services <==>
              name in o.services && (name in o.pods ==> SurvivesPolicy(policy, o.pods[name]))
  {
    EligibleNamesMeaning(policy, r.listed, r.stop);
    forall name | name in o.pods
      ensures name in EligibleNames(policy, r.listed, r.stop) <==> !SurvivesPolicy(policy, o.pods[name])
    {
      assert Mentions(r.listed, name);
      var i :| 0 <= i < |r.listed| && r.listed[i].name == name;
      assert forall j :: 0 <= j < |r.listed| && r.listed[j].name == name ==> j == i;
    }
  }

  /** A pass is complete exactly if no call fails for a pod that the policy takes, nor for its service. */
  lemma CompleteIff(policy: CleanPodPolicy, o: Objects, r: PassRecord, o': Objects)
    requires PassOf(policy, o, r, o')
    ensures r.stop == |r.listed| <==>
              forall name :: name in o.pods && !SurvivesPolicy(policy, o.pods[name]) ==>
                name !in r.podFails && name !in r.serviceFails && name in o.services
  {
    if r.stop == |r.listed| {
      forall name | name in o.pods && !SurvivesPolicy(policy, o.pods[name])
        ensures name !in r.podFails && name !in r.serviceFails && name in o.services
      {
        assert Mentions(r.listed, name);
        var i :| 0 <= i < |r.listed| && r.listed[i].name == name;
        assert !CallFails(policy, r.listed[i], o.services, r.podFails, r.serviceFails);
      }
    } else {
      assert CallFails(policy, r.listed[r.stop], o.services, r.podFails, r.serviceFails);
    }
  }

  /** The terminal branch. */

  /** cleanupJob: the job itself is deleted once its time to live after completion is over. */
  method CleanupJob(ttl: Option<int>, completionTime: Option<int>, now: int, deleteFails: bool)
    returns (err: bool, jobDeleted: bool, requeueAfter: Option<int>)
    ensures err <==> ttl.Some? && (completionTime.None? || (now > completionTime.value + ttl.value && deleteFails))
    ensures jobDeleted <==> !err && ttl.Some? && now > completionTime.value + ttl.value
    ensures requeueAfter ==
      if !err && !jobDeleted && ttl.Some? then Some(completionTime.value + ttl.value - now) else None
    ensures requeueAfter.Some? ==> requeueAfter.value >= 0
  {
    err, jobDeleted, requeueAfter := false, false, None;
    if ttl == None {
      return;
    }
    if completionTime == None {
      return true, false, None;
    }
    var deleteTime := completionTime.value + ttl.value;
    if now > deleteTime {
      err := deleteFails;
      jobDeleted := !deleteFails;
      return;
    }
    requeueAfter := Some(deleteTime - now);
  }

  function Folded(s: Pods.ReplicaStatus): Pods.ReplicaStatus {
    Pods.ReplicaStatus(0, s.succeeded + s.active, s.failed)
  }

  function AllFolded(statuses: map<ReplicaType, Pods.ReplicaStatus>): map<ReplicaType, Pods.ReplicaStatus> {
    map t | t in statuses :: Folded(statuses[t])
  }

  method FoldStatuses(replicas: Pods.JobReplicas)
    modifies replicas
    ensures replicas.statuses == AllFolded(old(replicas.statuses))
    ensures replicas.statuses.Keys == old(replicas.statuses).Keys
    ensures forall t :: t in replicas.statuses ==>
              && replicas.statuses[t].active == 0 && replicas.statuses[t].failed == old(replicas.statuses)[t].failed
              && replicas.statuses[t].succeeded == old(replicas.statuses)[t].succeeded + old(replicas.statuses)[t].active
  {
    var remaining := replicas.statuses.Keys;
    while remaining != {}
      invariant replicas.statuses.Keys == old(replicas.statuses).Keys && remaining <= replicas.statuses.Keys
      invariant forall t :: t in replicas.statuses ==>
        replicas.statuses[t] == if t in remaining then old(replicas.statuses)[t] else Folded(old(replicas.statuses)[t])
    {
      var t :| t in remaining;
      var s := replicas.statuses[t];
      replicas.statuses := replicas.statuses[t := s.(succeeded := s.succeeded + s.active, active := 0)];
      remaining := remaining - {t};
    }
  }

  function FailedReport(now: int): Report {
    Report(JobFailed, "JobFailed", "Job has failed because it has reached a limit", now)
  }

  /** The status part of the branch. */
  method SettleStatus(status: JobStatus, replicas: Pods.JobReplicas, exceedsLimit: bool, now: int)
    returns (succeeded: bool)
    modifies status, replicas
    ensures succeeded == Holds(status.conditions, JobSucceeded)
    ensures status.conditions ==
      if exceedsLimit then Update(old(status.conditions), FailedReport(now)) else old(status.conditions)
    ensures status.completionTime ==
      if exceedsLimit && old(status.completionTime).None? then Some(now) else old(status.completionTime)
    ensures replicas.statuses ==
      if Holds(status.conditions, JobSucceeded) then AllFolded(old(replicas.statuses)) else old(replicas.statuses)
  {
    if exceedsLimit {
      if status.completionTime == None {
        status.completionTime := Some(now);
      }
      status.UpdateJobConditions(FailedReport(now));
    }
    succeeded := status.HasCondition(JobSucceeded);
    if succeeded {
      FoldStatuses(replicas);
    }
  }

  /** Later calls of the branch that can fail: deleting the gang, creating the model version, updating the cache. */
  datatype OtherFaults = OtherFaults(gang: bool, modelVersion: bool, cache: bool)

  /** The branch once all pods and services are deleted. */
  method SettleJob(status: JobStatus, replicas: Pods.JobReplicas, exceedsLimit: bool, ttl: Option<int>, now: int,
                   deleteFails: bool, others: OtherFaults)
    returns (err: bool)
    modifies status, replicas
    ensures var completed := old(status.completionTime);
      var settles := !others.gang && !(ttl.Some? && (completed.None? || (now > completed.value + ttl.value && deleteFails)));
      && status.conditions == (if settles && exceedsLimit then Update(old(status.conditions), FailedReport(now))
                               else old(status.conditions))
      && status.completionTime == (if settles && exceedsLimit && completed.None? then Some(now) else completed)
      && replicas.statuses == (if settles && Holds(status.conditions, JobSucceeded) then AllFolded(old(replicas.statuses))
                               else old(replicas.statuses))
      && (err <==> !settles || others.cache || (others.modelVersion && Holds(status.conditions, JobSucceeded)))
  {
    var jobDeleted, requeueAfter;
    err, jobDeleted, requeueAfter := CleanupJob(ttl, status.completionTime, now, deleteFails);
    if err || others.gang {
      return true;
    }
    var succeeded := SettleStatus(status, replicas, exceedsLimit, now);
    err := (succeeded && others.modelVersion) || others.cache;
  }

  /**
   The branch for a job that is finished or has just exceeded a limit (`backoff` or `pastDeadline`). The status that
   is described here is saved only if the pass returns no error.
   */
  method TerminalPass(cluster: Cluster, status: JobStatus, replicas: Pods.JobReplicas, policy: CleanPodPolicy,
                      listed: seq<ListedPod>, ttl: Option<int>, now: int, backoff: bool, pastDeadline: bool,
                      podFails: set<string>, serviceFails: set<string>, deleteFails: bool, others: OtherFaults)
    returns (err: bool, ghost stop: nat, ghost podGone: bool)
    requires IsListing(listed, cluster.pods) && (Finished(status.conditions) || backoff || pastDeadline)
    modifies cluster, status, replicas
    ensures CleanedUp(policy, listed, old(cluster.pods), old(cluster.services), cluster.pods, cluster.services, stop, podGone)
    ensures StopsFor(policy, listed, old(cluster.services), stop, podGone, podFails, serviceFails)
    ensures var completed := if pastDeadline && !backoff then Some(now) else old(status.completionTime);
      var ttlError := ttl.Some? && (completed.None? || (now > completed.value + ttl.value && deleteFails));
      var settles := stop == |listed| && !ttlError && !others.gang;
      && status.conditions == (if settles && (backoff || pastDeadline) then Update(old(status.conditions), FailedReport(now))
                               else old(status.conditions))
      && status.completionTime == (if settles && backoff && completed.None? then Some(now) else completed)
      && replicas.statuses == (if settles && Holds(status.conditions, JobSucceeded) then AllFolded(old(replicas.statuses))
                               else old(replicas.statuses))
      && (err <==> !settles || others.cache || (others.modelVersion && Holds(status.conditions, JobSucceeded)))
  {
    if pastDeadline && !backoff {
      status.completionTime := Some(now);
    }
    var exceedsLimit := backoff || pastDeadline;
    err, stop, podGone := cluster.DeletePodsAndServices(policy, listed, podFails, serviceFails);
    if err {
      return;
    }
    err := SettleJob(status, replicas, exceedsLimit, ttl, now, deleteFails, others);
  }

  function FailedReports(nows: seq<int>): seq<Report> {
    seq(|nows|, i requires 0 <= i < |nows| => FailedReport(nows[i]))
  }

  /**
   However many such passes a finished job gets, limits exceeded or not, its conditions stay, and every type
   keeps its number of counted pods and of failures.
   */
  lemma FinishedPassesKeep(reports: seq<Report>, nows: seq<int>, statuses: map<ReplicaType, Pods.ReplicaStatus>,
                           t: ReplicaType)
    requires Finished(Run(reports)) && t in statuses
    ensures Run(reports + FailedReports(nows)) == Run(reports)
    ensures AllFolded(AllFolded(statuses)) == AllFolded(statuses)
    ensures var s, s' := statuses[t], AllFolded(statuses)[t];
      s'.active + s'.succeeded + s'.failed == s.active + s.succeeded + s.failed && s'.active == 0 && s'.failed == s.failed
  {
    RunConcat(reports, FailedReports(nows));
  }

  /** A limit fails an unfinished job for good, and never turns a finished one around. */
  lemma LimitFails(reports: seq<Report>, now: int, more: seq<Report>)
    requires !Finished(Run(reports))
    ensures var cs := Run(reports + [FailedReport(now)] + more);
      Holds(cs, JobFailed) && !Holds(cs, JobSucceeded) && !Holds(cs, JobRunning)
  {
    var all := reports + [FailedReport(now)];
    assert all[..|all| - 1] == reports;
    RunMeaning(reports);
    TerminalType(reports);
    RunMeaning(all);
    RunIsValid(all);
    ValidFinished(Run(all));
    RunConcat(all, more);
  }
}
