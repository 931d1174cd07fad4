# KubeDL reconcile protocols in Dafny

KubeDL is a Kubernetes operator for training and serving jobs. Its controllers run in passes: a pass reads a
snapshot of the cluster, changes status and objects step by step, may fail or crash midway, and is run again.
This project models the passes whose correctness is not visible in any single function, and proves what holds
for every input, every order in which lists and maps may come, and every run.

| file | what it models |
|---|---|
| `Checkpoint.dfy`, `CheckpointController.dfy` | the two-stage, versioned checkpoint transaction of an elastic PyTorch job: a transition system of controller, AIMaster, users and evictions, and the code of the pass, each API call of which is one of its steps |
| `Refresh.dfy`, `RefreshRuns.dfy` | the restart handshake of one stale pod with Kruise, and all its runs |
| `Scale.dfy`, `ScaleCounter.dfy`, `ScaleGate.dfy` | one scaling pass: masters before workers, the worker fan-out; when its unsynchronised counter is exact; the gate that lets a pass scale at all, and which rounds are finished |
| `ElasticPass.dfy` | the pass of `ReconcileJobs` over an elastic job: checkpoint first, then the gate |
| `Buckets.dfy`, `Services.dfy`, `Pods.dfy` | bucketing by index label, creation and deletion of services and pods, replica counters, convergence |
| `Dag.dfy` | DAG gates and the ordered loop of `ReconcileJobs` |
| `Cleanup.dfy` | passes over a terminated job |
| `Conditions.dfy` | the job condition list |
| `XdlStatus.dfy`, `PytorchStatus.dfy`, `PytorchActivity.dfy` | the verdict functions that drive it over Go maps |
| `CronSchedule.dfy`, `CronHistory.dfy`, `HistoryMeaning.dfy`, `CronActive.dfy`, `CronRuns.dfy` | the cron engine: missed schedules, bounded history, the active list compacted under its own loop, whole runs |
| `Names.dfy` | object names, which the above treat as unique |
| `Traffic.dfy` | the integer traffic split of an inference service |
| `Common.dfy` | shared types |

`dafny verify dfyconfig.toml` checks the whole project.

Code that changes state is a method on a class (or on an array, for the active list) whose contract gives the new
state as a function of the old one; the properties are lemmas about these functions and about runs. What such a function
means on the fields of the objects before and after is stated without naming it, in lemmas and in contracts of methods.
A loop over a Go map picks any remaining key, so its contract holds for every iteration order. API failures and crashes
are parameters.

## Where the code does not do what one would expect

- A service pass that meets a service whose bucket was cut off creates it again and returns AlreadyExists. Such passes
  need not converge (`Services.ConflictsCanCycle`); `Services.CleanIffAscending` says exactly which listings avoid them.
- The closed form for the most recent missed schedule is right at all times exactly for schedules with a constant period
  (`CronSchedule.AgreesIffConstantPeriod`); otherwise it can name a time that is never scheduled.
- Whether a PyTorch job becomes Succeeded or Failed depends on Go's random map order exactly if one type succeeds while
  another fails (`PytorchStatus.OrderMattersIffMixed`). Which of Running and Restarting is listed depends on it exactly in the
  states of `PytorchActivity.ActivityMixed`: without a verdict, if one type reports Running and another Restarting
  (`PytorchActivity.ActivityOrderMattersIffMixed`). Scaling is gated on Running.
- The stale-pod counter is always exact only if at most one worker completes (`ScaleCounter.AlwaysExactIffAtMostOne`); a
  schedule loses a decrement exactly if two goroutines overlap between load and store (`ScaleCounter.ExactIffNoOverlap`).
  The counter is then too high, so the pass does not mark the round done although every pod is refreshed. A round is finished
  if and only if some pass meets the gate of `ReconcileJobs` open, no patch fails it, and it completes every stale pod in play
  without a race (`ScaleGate.RoundFinishesIff`). As long as the listing does not change, that takes an AIMaster pod that lacks
  the new label (`ScaleGate.LaterPassFinishesIff`); without one the gate stays shut until, say, a pod is lost
  (`ScaleGate.LostPodFinishes`). A failed last patch ends the same way.
- The deletion of victims never returns when more than ten deletions report an error
  (`CheckpointController.CleanupVictimPods`).
- The Replace policy empties lists of at most two active entries only (`CronActive.ReplaceLeaves`).
- A pass saves an active entry without UID exactly if it gets as far as creating a workload that already exists and keeps no
  other such entry (`CronRuns.SavesNoUidIff`), as after a creation whose status update was lost
  (`CronRuns.LostSaveLeadsToNoUid`). Only a trim, once the API server no longer finds the workload, or a Replace pass that
  saves another workload drops the entry (`CronRuns.DropsNoUidIff`, `CronRuns.TrimKeepsNoUid`).
- Clean-up leaves a service behind exactly if some pass deleted its pod and then failed to delete the service
  (`Cleanup.ServiceLeftIff`).
- Names carry no kind: two jobs of different kinds and one name in a namespace claim the same objects wherever they have a
  type and index in common (`Names.KindsCollide`). Otherwise two objects share a name exactly if one replica type is the
  other behind a dash (`Names.CollisionCases`), which no two types of the repository's own kinds are, or if they are the
  master pods of one ElasticDL job (`Names.RepositoryObjectsShareNameIff`).

## Assumptions

- An accepted deletion removes the object at once, except where a finalizer is left: `PodControl.DeletePod`
  (pkg/job_controller/pod_control.go:181-210) first removes the preempt protector, but the refresh path deletes stale pods
  directly (controllers/pytorch/elastic_scale.go:286-289 and 352), so there a protected pod only becomes terminating.
- Listings and reads at the start of a pass are fresh; the PyTorch job is read without a cache
  (controllers/pytorch/pytorchjob_controller.go).
- No two jobs of different kinds in a namespace have one name. Then, by the lemmas of `Names.dfy`, there is at most one object
  per job, type and index.
- Only a pass that finishes a round takes back the flags that let its workers restart.
- AIMaster acknowledges only versions that were requested, users do not touch the protocol's annotations, and generations
  stay below 2^31, as versions are int32.
- Kruise reports success only after the containers were recreated.
- `Next` of a schedule returns whole seconds and moves forward, or always returns the same zero time if the schedule
  can never fire. Durations are exact.
- int32 sums and products in the traffic split do not overflow. In the XDL threshold the product is truncated as in Go, and the
  exactness theorem asks for a product that fits.
- Cron history keys are distinct within a pass, and the history limit is constant and not negative.
- UIDs are never reused.

## Model

| member | source | states |
|---|---|---|
| `Checkpoint.VersionDiscipline` | controllers/pytorch/elastic_scale.go:113-182 | In every state of every run: completed version ≤ requested version ≤ generation, a finished request is older than the generation, and `generation-to-increase` is never generation + 1, so the next bump really changes the spec |
| `Checkpoint.TriggerIsNewer` | controllers/pytorch/elastic_scale.go:438-456 | Each trigger writes a version above every earlier request and above the completion left over from it, so a leftover completion never satisfies it |
| `Checkpoint.RunKeepsInv` | controllers/pytorch/elastic_scale.go:118-182 | The invariant of job, controller position and event history holds after every run of controller, AIMaster, user and eviction steps |
| `Checkpoint.StepKeepsInv` | controllers/pytorch/elastic_scale.go:118-182 | Each single step, including failed writes and crashes, keeps that invariant |
| `Checkpoint.TriggerKeepsInv` | controllers/pytorch/elastic_scale.go:438-456 | A trigger patch, even one computed from an outdated read, keeps the invariant |
| `Checkpoint.DeleteKeepsInv` | controllers/pytorch/elastic_scale.go:458-484 | A deletion of the second stage keeps the invariant |
| `Checkpoint.BumpKeepsInv` | controllers/pytorch/elastic_scale.go:487-510 | An accepted bump keeps the invariant and raises the generation by exactly one |
| `Checkpoint.HistoriesAreDisciplined` | controllers/pytorch/elastic_scale.go:118-182 | Every history of a run obeys the discipline: trigger, acknowledgement, deletions, bump |
| `Checkpoint.DeletionIsAcknowledged` | controllers/pytorch/elastic_scale.go:162-170 | A victim pod is deleted only in a round whose trigger was acknowledged with the same version before the deletion, with no other trigger or bump in between |
| `Checkpoint.DeletionsOfTwoRounds` | controllers/pytorch/elastic_scale.go:136-181 | Between deletions of two different rounds the first is bumped, then the second is triggered and acknowledged, and its version is higher |
| `Checkpoint.NoScaleWhileOutstanding` | pkg/job_controller/job.go:252-279 | No scale-out or scale-in call happens between a trigger and the bump of its version |
| `Checkpoint.NoTriggerWhileOutstanding` | controllers/pytorch/elastic_scale.go:136-181 | A failed bump re-runs only the second stage: a second trigger comes only after the bump of the first version |
| `Checkpoint.VersionsGrow` | controllers/pytorch/elastic_scale.go:113-117 | Rounds only move to higher versions |
| `Checkpoint.OpenUntilBump` | controllers/pytorch/elastic_scale.go:162-181 | An opened round stays open until its own bump |
| `Checkpoint.WindUpRound` | controllers/pytorch/elastic_scale.go:162-175 | Without failures the second stage deletes all victims, raises the generation by one and marks the workers ready |
| `Checkpoint.RoundCompletes` | controllers/pytorch/elastic_scale.go:118-182 | From any reachable idle state with a pod under eviction and no open request (none ever, or the last one answered and marked succeeded), two passes and one acknowledgement delete all victims, raise the generation by one, mark workers ready and let the pass on to scaling |
| `Checkpoint.QuietPass` | controllers/pytorch/elastic_scale.go:151-161 | Without pods under eviction and without open request a pass goes on to scaling and changes neither job nor history |
| `Checkpoint.PassMeaning` | controllers/pytorch/elastic_scale.go:136-170 | In every run, of a pass still under way: what it read tells where it can be. With no open request it triggers if some pod was under eviction and scales if none was; with an open one it is at the second stage of an acknowledged round, and at scaling only after the bump of that round |
| `Checkpoint.TriggerHasVictims` | controllers/pytorch/elastic_scale.go:151-156 | Each trigger in the history of a run belongs to a pass that read a pod under eviction, no open request, and the generation it wrote as version |
| `Checkpoint.VictimsHoldScaling` | controllers/pytorch/elastic_scale.go:151-161 | A pass that read pods under eviction and no open request never gets to scaling |
| `CheckpointController.CheckpointIfNecessary` | controllers/pytorch/elastic_scale.go:118-182 | On the annotations as read: no open request and no victims completes and changes nothing; no open request and victims writes a request of the current generation and does not complete; an unanswered request waits; an answered one is wound up, with the result under every API failure and a concurrent change of the job; and the pass is a sequence of steps of the transition system |
| `CheckpointController.WindUpCheckpoint` | controllers/pytorch/elastic_scale.go:162-175 | Second stage: an error exactly if a deletion reported one, completion exactly if also the bump was accepted and acknowledged, and a hanging pass stays in this stage |
| `CheckpointController.TriggerJobCheckpoint` | controllers/pytorch/elastic_scale.go:438-456 | Writes the requested version from the generation that was read, as an unconditional patch |
| `CheckpointController.CleanupVictimPods` | controllers/pytorch/elastic_scale.go:458-484 | Deletes every victim whose deletion does not fail, in any order; an error exactly if some deletion reported one, and it hangs exactly if more than ten did |
| `CheckpointController.IncreaseGenerationAndMarkAsSucceeded` | controllers/pytorch/elastic_scale.go:487-510 | A full update, rejected on a concurrent change, that raises the generation by one |
| `CheckpointController.ApiServer.Update` | controllers/pytorch/elastic_scale.go:505-509 | Optimistic locking, a generation that rises only if the spec differs, and an update that may be applied although an error is reported |
| `CheckpointController.ApiServer.PatchRequested` | controllers/pytorch/elastic_scale.go:441-454 | The patch may be applied although an error is reported |
| `CheckpointController.RecordedRunIsDisciplined` | controllers/pytorch/elastic_scale.go:118-182 | At any time the recorded history is disciplined and completed ≤ requested ≤ generation |
| `Refresh.Cluster.RestartStalePod` | controllers/pytorch/elastic_scale.go:281-315 | One attempt on a stale pod: the new slot, completion and error are those of `Attempt`, branch by branch |
| `Refresh.Cluster.RestartPodInKruiseProtocol` | controllers/pytorch/elastic_scale.go:317-370 | World size first, then the recreation request of this generation, then its outcome |
| `Refresh.Cluster.DeletePod` | controllers/pytorch/elastic_scale.go:286-289 | The plain deletion of the refresh path: a pod with a finalizer only becomes terminating |
| `RefreshRuns.LostIff` | controllers/pytorch/elastic_scale.go:286-289 | An attempt makes a pod disappear or become terminating if and only if the deletion is accepted and either workers start immediately and the pod had ended or was terminating, or the request of this generation had failed and the pod carries the right world size |
| `RefreshRuns.LabelWrittenIff` | controllers/pytorch/elastic_scale.go:281-370 | Exactly when an attempt moves the label, and it only ever moves to the generation of the pass |
| `RefreshRuns.SizeWrittenIff` | controllers/pytorch/elastic_scale.go:317-330 | Exactly when an attempt writes the world size, and only the one of the pass |
| `RefreshRuns.RequestMadeIff` | controllers/pytorch/elastic_scale.go:332-370 | Exactly when an attempt makes a request, of which generation, for which pod and size, and when one is left or taken away instead |
| `RefreshRuns.CompletedIff` | controllers/pytorch/elastic_scale.go:281-315 | Completion: the deletion was accepted, or the pod carries the new label afterwards |
| `RefreshRuns.ImmediateIsOrdinary` | controllers/pytorch/elastic_scale.go:286-289 | For an active pod immediate start makes no difference, so the rank lemmas hold for it too |
| `RefreshRuns.LiveLossIsFailure` | controllers/pytorch/elastic_scale.go:349-354 | In every run, a live pod is lost in a pass only after Kruise reported failed a request of that generation made for that very pod |
| `RefreshRuns.LabelAdvanceIsSafe` | controllers/pytorch/elastic_scale.go:281-370 | In every run, a pass that moves the label of a live pod to g finds a request that has completed, and containers recreated for this pod by a request of g that was created after its world size had become the replica total of g |
| `RefreshRuns.RunKeepsInv` | controllers/pytorch/elastic_scale.go:281-370 | The invariant relating pod, request and pass generation holds in every run |
| `RefreshRuns.StepKeepsInv` | controllers/pytorch/elastic_scale.go:281-370 | Passes, Kruise, kubelet restarts, evictions and re-creation keep it |
| `RefreshRuns.AttemptLowersRank` | controllers/pytorch/elastic_scale.go:317-370 | Without failures an attempt lowers the rank (size, request, pending, done, labelled) or changes nothing while Kruise works |
| `RefreshRuns.ThreeAttemptsSuffice` | controllers/pytorch/elastic_scale.go:281-370 | Two attempts, Kruise, and one more attempt label or replace the pod |
| `ScaleCounter.CounterNeverUndershoots` | controllers/pytorch/elastic_scale.go:235-262 | Under every interleaving of the loads and stores of `total--` the counter stays at least the initial value minus the number of finished workers |
| `ScaleCounter.CounterStepKeepsInv` | controllers/pytorch/elastic_scale.go:235-256 | Each load or store keeps that bound |
| `ScaleCounter.HundredTickets` | controllers/pytorch/elastic_scale.go:235-241 | The semaphore: up to a hundred goroutines start at once, and a later one only after one of the earlier ones has ended |
| `ScaleCounter.ExactIffNoOverlap` | controllers/pytorch/elastic_scale.go:235-257 | A complete schedule of any number of goroutines ends with the exact counter if and only if no two are ever between load and store at once; otherwise it ends too high |
| `ScaleCounter.AlwaysExactIffAtMostOne` | controllers/pytorch/elastic_scale.go:235-257 | Every complete schedule that the semaphore admits is exact if and only if at most one goroutine completes |
| `ScaleCounter.LosingSchedule` | controllers/pytorch/elastic_scale.go:235-257 | For any two completing goroutines among any number the semaphore admits a schedule that loses a decrement |
| `ScaleGate.GetTotalReplicas` | pkg/util/k8sutil/k8sutil.go:199-205 | The sum over the replica map, in any order |
| `ScaleGate.GetNumReplicasForLatestGeneration` | pkg/util/k8sutil/k8sutil.go:173-182 | The number of listed pods labelled with the generation |
| `ScaleGate.FilterInRange` | controllers/pytorch/elastic_scale.go:88-104 | The pods whose index is in range, for scale-in |
| `ScaleGate.ScaleOut` | controllers/pytorch/elastic_scale.go:71-80 | Scaling out works on the whole listing |
| `ScaleGate.ScaleIn` | controllers/pytorch/elastic_scale.go:83-111 | Scaling in works on the pods in range |
| `ScaleGate.ScaleIfNecessary` | pkg/job_controller/job.go:252-279 | Scaling is called if and only if the job is running and elastic, the checkpoint call reported done, the generation is above one and labelled pods and replicas differ; else job, service and pods stay and nothing is finished. With more replicas than labelled pods every listed stale pod is in play, with fewer no pod out of range changes. The round is finished exactly if flags and gate are open, no patch fails, every stale pod in play completes and no two goroutines race |
| `ScaleGate.LabelledCounts` | pkg/util/k8sutil/k8sutil.go:173-182 | The count of labelled pods is the number of places in the listing with a pod of that label |
| `ScaleGate.TotalCounts` | pkg/util/k8sutil/k8sutil.go:199-205 | The replica total is the number of (type, index) places |
| `ElasticPass.ReconcileElastic` | pkg/job_controller/job.go:252-279 | One whole pass, checkpoint call and gate: pods, service and flags change only if scaling is called, and that takes either no open request and no victims, or a round that this pass has just wound up; so a pass that read an outstanding request or a pod under eviction without one changes no pod. Conversely, without either it is called as soon as replicas and labelled pods differ |
| `ElasticPass.CheckpointFirst` | pkg/job_controller/job.go:256-261 | When the checkpoint call lets the pass go on, on the annotations as read |
| `ElasticPass.ScaleNext` | pkg/job_controller/job.go:262-279 | The gate behind it; exactly a call of scaling is recorded as one |
| `ScaleGate.RoundFinishesIff` | pkg/job_controller/job.go:252-279 | Over passes between which pods, replicas, generation and conditions may change in any way: a round whose flags are set is finished if and only if some pass meets the gate open, no patch fails it, and it completes every stale pod in play without a race |
| `ScaleGate.UnfinishedRoundFinishesIff` | pkg/job_controller/job.go:252-279 | If no pass over stale pods finishes the round, it is finished if and only if a pass with nothing stale in play meets the gate open and no patch fails it |
| `ScaleGate.SettledGate` | pkg/job_controller/job.go:262-272 | Once all other pods carry the new label, the gate of a pass that may scale is open exactly because of an AIMaster pod without it |
| `ScaleGate.CompletedPassSettles` | controllers/pytorch/elastic_scale.go:218-257 | A pass that completes every stale pod and leaves each alive leads there, whatever the counter says |
| `ScaleGate.ClosedGateStays` | pkg/job_controller/job.go:252-272 | Without such a pod, and as long as pods, replicas and generation stay as they are, no pass changes anything or finishes the round |
| `ScaleGate.LaterPassFinishesIff` | pkg/job_controller/job.go:252-272 | After a lost decrement or a failed last patch, and for an unchanged listing, a later pass finishes the round if and only if an AIMaster pod lacks the new label and some pass may scale and has no failing patch |
| `ScaleGate.LostPodFinishes` | pkg/job_controller/job.go:262-272 | A pod that is lost opens the shut gate again, and a pass that may scale then finishes the round |
| `Scale.RefreshMasters` | controllers/pytorch/elastic_scale.go:218-234 | Masters are attempted in order, and none after the first failing one; the stage completes exactly if every attempt completes |
| `Scale.StaleMeaning` | pkg/util/k8sutil/k8sutil.go:122-148 | Which pods are stale on their fields: listed, no AIMaster, unlabelled or of a lower generation |
| `Scale.RefreshWorkers` | controllers/pytorch/elastic_scale.go:235-257 | Every worker is attempted, by some complete schedule of the goroutines that the semaphore admits; the counter is that of this schedule |
| `Scale.RefreshStalePods` | controllers/pytorch/elastic_scale.go:218-257 | Workers change only if every stale master completed; the counter reaches zero exactly if every stale pod completed and no two goroutines raced |
| `Scale.ReachesZero` | controllers/pytorch/elastic_scale.go:235-259 | The same for every schedule |
| `Scale.RacesIffTwoComplete` | controllers/pytorch/elastic_scale.go:235-257 | Some admitted schedule of a pass races exactly if two workers complete in it |
| `Scale.EnterScaling` | controllers/pytorch/elastic_scale.go:196-216 | Exactly when a pass gets to the pods; the master service is moved and scaling marked in flight before |
| `Scale.ScalePass` | controllers/pytorch/elastic_scale.go:196-274 | The round is marked done exactly if the pass gets to the pods, completes every stale one without a race, and the last patch succeeds; then every stale pod is gone, terminating or labelled, and the readiness flags change only then |
| `Scale.FlagsMeaning` | controllers/pytorch/elastic_scale.go:196-274 | On the fields before and after: without a readiness flag no pod changes; pods change only after service and scaling state were written; each failing patch keeps the round open; a finished round has both flags down and is marked done, an unfinished one keeps both |
| `Scale.RefreshStaleService` | controllers/pytorch/elastic_scale.go:375-396 | The master service label and selector move to the generation |
| `Scale.FilterStalePodsByReplicaType` | pkg/util/k8sutil/k8sutil.go:122-148 | Total and per-type lists of stale pods that are not AIMaster |
| `Scale.StaleTotalSplits` | pkg/util/k8sutil/k8sutil.go:122-136 | The total is that of masters and workers exactly if no stale pod is of another type |
| `Buckets.BucketContents` | pkg/job_controller/service.go:168-193 | For any list, each bucket holds exactly the objects of its index that no later, smaller out-of-range index cut off |
| `Buckets.InRangeBucket` | pkg/job_controller/pod.go:206-232 | An in-range bucket is exactly the objects of that index, in order |
| `Buckets.LastOutOfRangeIsKept` | pkg/job_controller/pod.go:221-227 | The last-listed out-of-range object is always kept |
| `Buckets.LostBucket` | pkg/job_controller/service.go:182-189 | The bucket of an index below a smaller out-of-range index listed later is empty although the object exists |
| `Buckets.KeptBucket` | pkg/job_controller/service.go:182-189 | With one object per index a kept bucket holds its object alone |
| `Buckets.FilterForReplicaType` | pkg/job_controller/pod.go:183-202 | Selects the objects of one type, in order |
| `Buckets.OfTypeMeaning` | pkg/job_controller/pod.go:183-202 | The selection goes through the list once, in order, and keeps exactly the objects of the type |
| `Buckets.SelectMeaning` | pkg/job_controller/service.go:168-193 | The same for the objects of one index |
| `Services.GetServiceSlices` | pkg/job_controller/service.go:168-193 | Computes the bucket list `Slices`, for lists without negative index labels |
| `Services.ReconcileServices` | pkg/job_controller/service.go:197-257 | The pass complements the out-of-range indices up to the first bucket that errs, creates what is missing in range, and errs exactly at a failing call, a failing port patch or a lost bucket |
| `Services.ReconcileBucket` | pkg/job_controller/service.go:210-255 | What one bucket does to the cluster |
| `Services.CleanPassCountsDown` | pkg/job_controller/service.go:197-257 | An error-free pass with out-of-range services takes 1 + 2x off their binary number, x being the bits below the last-listed one |
| `Services.CleanPassMeaning` | pkg/job_controller/service.go:197-257 | After a pass without failures: every index in range has a service, new ones are not terminating, existing ones are untouched, and out of range exactly the terminating ones are left |
| `Services.FailsIff` | pkg/job_controller/service.go:197-257 | For an ascending listing a pass fails exactly at a failing creation, a failing deletion of a service that is out of range and not terminating, or a failing port patch |
| `Services.CleanIffAscending` | pkg/job_controller/service.go:168-193 | A pass meets no lost service exactly if the listing is ascending below the last-listed out-of-range index |
| `Services.PassKinds` | pkg/job_controller/service.go:197-257 | Without API failures every pass is clean or stops with AlreadyExists |
| `Services.ServicesConverge` | pkg/job_controller/service.go:197-257 | Error-free passes reach exactly the indices 0..replicas-1, whatever order each lists |
| `Services.TargetIsStable` | pkg/job_controller/service.go:197-257 | The target is a fixed point of every listing |
| `Services.DescendingCountsDownByOne` | pkg/job_controller/service.go:182-189 | The bound is met: with the smallest index listed last the number drops by one |
| `Services.ConflictsCanCycle` | pkg/job_controller/service.go:219-224 | Passes that return AlreadyExists can lead back to the start |
| `Pods.GetPodSlices` | pkg/job_controller/pod.go:206-232 | Computes the bucket list `Slices`, skipping pods without a usable index |
| `Pods.ReconcilePods` | pkg/job_controller/pod.go:236-348 | After the pass: which pods exist, what was created, the counters of the pods listed, the restart flag, and when an error is returned |
| `Pods.ReconcileOnePod` | pkg/job_controller/pod.go:352-398 | Out of range: deletion; in range: counted, and selected for fail-over exactly if the exit code or reason asks for it |
| `Pods.ReconcileBuckets` | pkg/job_controller/pod.go:278-321 | The bucket loop, with its error exit |
| `Pods.ReconcileBucket` | pkg/job_controller/pod.go:278-321 | What one bucket does to cluster, counters and fail-over list |
| `Pods.RecreatePods` | pkg/job_controller/failover.go:89-112 | Deletes the selected pods; failed deletions leave theirs |
| `Pods.JobReplicas.UpdateJobReplicaStatuses` | pkg/job_controller/status.go:19-31 | Counts one pod |
| `Pods.AllInitContainersPassed` | pkg/job_controller/status.go:34-44 | True exactly if no init container is waiting |
| `Pods.TallyMeaning` | pkg/job_controller/status.go:10-31 | Active + Succeeded + Failed ≤ replicas, and Succeeded = replicas exactly if every index holds a succeeded pod |
| `Pods.TallyCounts` | pkg/job_controller/status.go:10-31 | Each counter is the number of in-range pods in its phase, Active also counting scheduled pending pods whose init containers have passed |
| `Pods.FailsOverMeaning` | pkg/job_controller/failover.go:41-54 | Which pods the pass deletes for fail-over, by restart policy, exit code and reason |
| `Pods.ExitCodeMeaning` | pkg/job_controller/pod.go:355-376 | The exit code used is that of the default container if it has terminated, else the placeholder |
| `Pods.PassWithoutFailures` | pkg/job_controller/pod.go:268-321 | A pass without failures leaves the in-range indices and the out-of-range pods whose bucket was lost |
| `Pods.PassRemoves` | pkg/job_controller/pod.go:268-321 | Such a pass removes at least one out-of-range pod and adds none |
| `Pods.PodsConverge` | pkg/job_controller/pod.go:268-321 | Passes reach exactly 0..n-1 within max(1, number of out-of-range pods) passes |
| `Pods.PodTargetIsStable` | pkg/job_controller/pod.go:268-321 | From there on a pass changes nothing |
| `Pods.DescendingRemovesOne` | pkg/job_controller/pod.go:221-227 | The bound is tight: a descending listing removes one pod |
| `Conditions.JobStatus.HasCondition` | pkg/util/status.go:107-114 | True exactly if a true condition of the type is listed |
| `Conditions.JobStatus.GetCondition` | pkg/util/status.go:98-105 | The first condition of the type |
| `Conditions.JobStatus.GetLastCondition` | pkg/util/status.go:154-163 | The last condition if it has the type |
| `Conditions.JobStatus.SetCondition` | pkg/util/status.go:131-151 | The new list, including the three cases that leave it alone or keep the transition time |
| `Conditions.JobStatus.UpdateJobConditions` | pkg/util/status.go:64-68 | Sets a fresh true condition |
| `Conditions.FilterOutCondition` | pkg/util/status.go:166-188 | The filtered list, Running demoted by a verdict |
| `Conditions.IsWorkloadFinished` | controllers/apps/cron_utils.go:170-181 | Type of the last condition, and whether the job is over |
| `Conditions.RunIsValid` | pkg/util/status.go:131-188 | After any calls: types unique, Running and Restarting never together, verdict only last, no true Running beside it |
| `Conditions.UpdateKeepsValid` | pkg/util/status.go:131-188 | Each call keeps that |
| `Conditions.ValidFinished` | pkg/util/status.go:131-188 | Then a list is finished exactly if its last condition is a verdict, and never with both verdicts or a true Running |
| `Conditions.FinishedReportsItsVerdict` | controllers/apps/cron_utils.go:170-181 | Finished is reported exactly together with type Succeeded or Failed |
| `Conditions.RunConcat` | pkg/util/status.go:131-135 | A verdict is absorbing |
| `Conditions.CreatedIsNeverLost` | pkg/util/status.go:166-188 | Created, once true, stays true |
| `Conditions.RunMeaning` | pkg/util/status.go:131-188 | The verdict is the first terminal report; Running or Restarting is listed as last reported before it |
| `Conditions.ReportedComesLast` | pkg/util/status.go:131-151 | On an unfinished list a report with a reason that is listed for its type changes nothing; any other ends the list as a true condition with its reason, message and clock, and the transition time of the condition it replaces |
| `Conditions.FilteredLists` | pkg/util/status.go:166-188 | Which types the filter leaves, both directions |
| `Conditions.TransitionTimeIsKept` | pkg/util/status.go:140-149 | A renewed condition keeps its transition time |
| `Conditions.ProjectUpdate` | pkg/util/status.go:131-151 | Types, states and reasons never depend on messages or clock readings |
| `XdlStatus.UpdateGeneralJobStatus` | controllers/xdl/status.go:37-119 | For every map order: one report with the verdict and reason of `Verdict`; start and completion times |
| `XdlStatus.PercentageIsExact` | controllers/xdl/status.go:125-128 | With a percentage p: the threshold is met exactly if 100·succeeded ≥ p·workers |
| `XdlStatus.OrderDoesNotMatter` | controllers/xdl/status.go:44-119 | Types, states and reasons are the same for every map order |
| `XdlStatus.VerdictDecides` | controllers/xdl/status.go:44-119 | From any unfinished status: Failed, Succeeded, Running and Restarting, each exactly under its condition |
| `XdlStatus.SucceedsIff` | controllers/xdl/status.go:44-136 | Succeeded exactly if no replica failed and the percentage, the fixed number or all of the workers are met |
| `XdlStatus.VerdictOnCounters` | controllers/xdl/status.go:44-136 | The condition after a pass, stated on replica specs and counters alone |
| `XdlStatus.FinishedStays` | controllers/xdl/status.go:75-119 | A finished status is unchanged |
| `PytorchStatus.UpdateGeneralJobStatus` | controllers/pytorch/status.go:33-141 | For every map order: the reports of all types in that order, the configuration error, start and completion times |
| `PytorchStatus.ReportAll` | controllers/pytorch/status.go:56-141 | The loop over the replica map |
| `PytorchStatus.ReportSuccess` | controllers/pytorch/status.go:85-107 | Success is reported exactly for a complete AIMaster, or a complete Master with complete or unspecified workers |
| `PytorchStatus.ReportFailure` | controllers/pytorch/status.go:114-139 | Restarting or Failed is reported for a type with failures |
| `PytorchStatus.PassDecides` | controllers/pytorch/status.go:56-141 | From any unfinished status the first deciding type in map order decides |
| `PytorchStatus.SuccessNeedsMaster` | controllers/pytorch/status.go:85-107 | In every order, newly Succeeded means all AIMaster pods, or all Master pods and all pods of specified workers, have succeeded |
| `PytorchStatus.SucceedsIsComplete` | controllers/pytorch/status.go:85-90 | What completeness means for the pods behind the counters; such a type has no failure |
| `PytorchStatus.OrderMattersIffMixed` | controllers/pytorch/status.go:56-141 | Two map orders can decide differently between Succeeded and Failed exactly if one type succeeds while another fails |
| `PytorchStatus.OrderCanMatter` | controllers/pytorch/status.go:56-141 | Pods and counters for which they do: AIMaster succeeded, the only worker failed, no restart |
| `PytorchActivity.PassLeaves` | controllers/pytorch/status.go:56-141 | From any reachable unfinished status: whether Running or Restarting is listed after a pass, and whether Running holds, for every map order |
| `PytorchActivity.VerdictOnCounters` | controllers/pytorch/status.go:56-141 | For every map order, on replica specs and counters alone: the job is finished exactly if AIMaster or Master with the workers is complete, or a type failed without restart or AIMaster failed; and each verdict under its own condition |
| `PytorchActivity.ActivityOnCounters` | controllers/pytorch/status.go:56-141 | Without a verdict: Running is left by an active master, Restarting by a failure, and neither keeps what was listed |
| `PytorchActivity.ActivityOrderMattersIffMixed` | controllers/pytorch/status.go:56-141 | Two map orders can leave different ones of Running and Restarting exactly if, without a verdict, one type reports Running and another Restarting, or, with one, a deciding type reports neither and some type reports another than the one listed before |
| `PytorchActivity.ActivityOrderCanMatter` | controllers/pytorch/status.go:56-141 | Pods and counters for which they do: an active Master and a failed Worker that is restarted |
| `Dag.DagConditionsReady` | pkg/job_controller/dag_sched.go:29-46 | True exactly if every condition is ready |
| `Dag.UpstreamReplicasReady` | pkg/job_controller/dag_sched.go:47-68 | Unspecified upstream, or enough pods and none behind the phase |
| `Dag.ReadyOnPhases` | pkg/job_controller/dag_sched.go:29-106 | The gate on phases: a type that waits for Running is never opened by a pending pod or one of unknown phase, and Succeeded and Failed both satisfy every wait |
| `Dag.SortPodsByReplicaType` | pkg/job_controller/dag_sched.go:69-92 | The pods of each specified type, in order |
| `Dag.ReconcileReplicas` | pkg/job_controller/job.go:289-325 | The ordered loop: a gated type is untouched, an open one gets all missing pods, every gate read from the listing taken before; it ends early at an error of pods or services, or at the first type other than AIMaster while AIMaster is not ready, and then leaves all later types as they were |
| `Dag.ReconcileGated` | pkg/job_controller/job.go:289-316 | One round of the loop |
| `Dag.CreatedOnlyWhenReady` | pkg/job_controller/job.go:289-316 | In every pass, also a failing one, a pod is created only for a type in the order whose conditions all hold in the listing, and only in range |
| `Dag.ListedReady` | pkg/job_controller/dag_sched.go:29-68 | On a complete listing the gate is the gate on the cluster |
| `Dag.LoopIsRound` | pkg/job_controller/job.go:289-325 | The loop is one round of the run model |
| `Dag.RankedIsFull` | pkg/job_controller/job.go:289-325 | A type of rank r is fully created after r + 1 rounds |
| `Dag.StartedIsRanked` | pkg/job_controller/dag_sched.go:29-68 | From nothing, a type has a pod only if its rank allows it |
| `Dag.FullIffRanked` | pkg/job_controller/dag_sched.go:29-68 | From nothing, exactly the types of rank below the number of rounds are complete |
| `Dag.AcyclicCompletes` | pkg/job_controller/dag_sched.go:29-68 | Without a circle every type is complete after as many rounds as there are types |
| `Dag.CycleStarves` | pkg/job_controller/dag_sched.go:29-68 | Types waiting for each other in a circle never get a pod |
| `Cleanup.Cluster.DeletePodsAndServices` | pkg/job_controller/job.go:41-68 | Which pods and services are gone when the loop ends or aborts; it aborts at the first listed pod with a failing call, whether that is the call for the pod or for the service |
| `Cleanup.PassProgress` | pkg/job_controller/job.go:41-68 | An aborted pass removed an eligible pod and no other pod; a complete one removed them all |
| `Cleanup.CompletePassLeaves` | pkg/job_controller/job.go:41-68 | Per clean-up policy and pod phase: which pods and services a complete pass leaves, and that it takes all others |
| `Cleanup.CompleteIff` | pkg/job_controller/job.go:41-68 | A pass is complete exactly if no pod it has to delete has a failing call or lacks its service |
| `Cleanup.AbortsAreBounded` | pkg/job_controller/job.go:181-185 | There are at most as many aborted passes as eligible pods |
| `Cleanup.OrphanedIff` | pkg/job_controller/job.go:54-66 | One pass leaves the service of an existing pod behind exactly if its first failing call is the one for this service |
| `Cleanup.OrphanedStays` | pkg/job_controller/job.go:54-66 | Such a service outlives every further pass |
| `Cleanup.OrphanedByThen` | pkg/job_controller/job.go:54-66 | After any number of passes a service is left behind exactly if one of them did so |
| `Cleanup.ServiceLeftIff` | pkg/job_controller/job.go:41-68 | Clean-up that ends with a complete pass leaves a service behind exactly if some pass deleted its pod and failed to delete it |
| `Cleanup.CleanupJob` | pkg/job_controller/job.go:593-617 | When the job itself is deleted, kept or in error |
| `Cleanup.TerminalPass` | pkg/job_controller/job.go:169-243 | Creates nothing; conditions change only by a limit on an unfinished job, counters only by folding Active into Succeeded of a succeeded job; every error exit |
| `Cleanup.SettleStatus` | pkg/job_controller/job.go:201-223 | The status part of the branch |
| `Cleanup.FoldStatuses` | pkg/job_controller/job.go:215-223 | Every type, in any map order, moves Active to Succeeded |
| `Cleanup.FinishedPassesKeep` | pkg/job_controller/job.go:181-247 | Any number of such passes leaves the conditions and conserves Active + Succeeded + Failed per type |
| `Cleanup.LimitFails` | pkg/job_controller/job.go:201-213 | A limit fails an unfinished job for good |
| `CronSchedule.GetMostRecentScheduleTime` | controllers/apps/cron_utils.go:93-121 | The closed form, computed in whole seconds; an error exactly if the schedule does not advance; the loop terminates |
| `CronSchedule.GetNextScheduleTime` | controllers/apps/cron_utils.go:54-89 | Asks from the last scheduled time or the creation, and not from the future |
| `CronSchedule.ClosedFormBounds` | controllers/apps/cron_utils.go:105-120 | For every schedule: first missed time ≤ result ≤ now < result + first gap |
| `CronSchedule.ConstantPeriodAgrees` | controllers/apps/cron_utils.go:112-120 | With a constant period: the latest schedule and the exact count found by iteration |
| `CronSchedule.AgreesIffConstantPeriod` | controllers/apps/cron_utils.go:112-120 | The closed form is right at all times exactly for constant periods |
| `CronSchedule.ComputedTimeMayBeUnscheduled` | controllers/apps/cron_utils.go:112-120 | The schedule "0,1 * * * *", for which the computed time need not be a scheduled one |
| `CronSchedule.NextIsLater` | controllers/apps/cron_utils.go:54-89 | Whatever the schedule was edited to, the next time lies after the last one and not in the future |
| `Names.GeneralNameInjective` | pkg/util/util.go:73-76 | For types without dashes and numeric indices two names are equal exactly if job (up to slashes), type and index are |
| `Names.ServicesShareNameIff` | pkg/job_controller/service.go:341 | The kind is no part of a name: two objects share it exactly if index and job with type agree |
| `Names.PodsShareNameIff` | pkg/job_controller/pod.go:511-516 | The same for pods, but for the masters of ElasticDL jobs, whose name has no index |
| `Names.CollisionCases` | pkg/util/util.go:73-76 | Two different objects share a name exactly if two kinds of job have one name, type and index, or one type is the other behind a dash and the job names make up for it |
| `Names.RepositoryObjectsShareNameIff` | pkg/job_controller/pod.go:511-516 | For the types the job kinds reconcile only jobs of two kinds with one name can, and the masters of one ElasticDL job |
| `Names.KindsCollide` | pkg/job_controller/pod.go:511-516 | A TFJob and a PyTorchJob of one name claim the same worker pods |
| `Names.TypesCollideIff` | pkg/util/util.go:73-76 | Two different types can compete for a name exactly if one of them is the other behind a dash |
| `Names.DefaultNamesDiffer` | controllers/apps/cron_utils.go:183-185 | Different scheduled seconds give different workload names |
| `Names.HistoryKeyInjective` | controllers/apps/cron_controller.go:266 | The key string determines name and creation time |
| `Names.ValueOfDigits` | pkg/job_controller/pod.go:278 | Printed numbers read back as themselves |
| `CronHistory.Cron.RefreshCronHistory` | controllers/apps/cron_controller.go:262-297 | Merge by key, sort, truncate |
| `CronHistory.RefreshKeepsLatest` | controllers/apps/cron_controller.go:262-297 | One refresh of distinct workloads keeps the history the latest part of everything observed |
| `CronHistory.HistoryIsLatest` | controllers/apps/cron_controller.go:262-297 | After any refreshes the history is sorted, unique, and the latest k of all workloads ever observed, each with its latest status |
| `CronHistory.KeptIffRecent` | controllers/apps/cron_controller.go:288-294 | A key is in the history exactly if fewer than k observed keys are later |
| `CronHistory.SortMeaning` | controllers/apps/cron_utils.go:187-204 | Sorting distinct keys gives the strictly sorted list of the same entries |
| `CronHistory.KeyLessTotal` | controllers/apps/cron_utils.go:193-204 | The order is a strict total order on keys |
| `CronHistory.KeyLessTransitive` | controllers/apps/cron_utils.go:193-204 | And transitive |
| `HistoryMeaning.StringLessMeaning` | controllers/apps/cron_utils.go:193-204 | The name order: at the first place where two names differ the smaller character comes first, and a proper prefix comes before |
| `HistoryMeaning.StoredAscends` | controllers/apps/cron_controller.go:286 | Creation times never go down along the stored history, and within one time names go up |
| `HistoryMeaning.CutIsOlder` | controllers/apps/cron_controller.go:288-294 | What was observed and is not stored was created before everything stored, or with it under a smaller name, and the history is full |
| `HistoryMeaning.StoredIffFewNewer` | controllers/apps/cron_controller.go:288-294 | An observed workload is stored exactly if fewer than k observed ones were created after it, or with it under a larger name |
| `HistoryMeaning.StoredStatus` | controllers/apps/cron_controller.go:276-281 | Each stored entry has the status its workload was last observed with |
| `HistoryMeaning.FinishIsLatest` | controllers/apps/cron_controller.go:276-281 | The finish time kept is that of the last observation that found the workload finished, and no later one clears it |
| `CronActive.Cron.DeleteFromActiveList` | controllers/apps/cron_utils.go:152-168 | The first reference to the UID goes, the rest moves down, nothing beyond the new end is written |
| `CronActive.Cron.InActiveList` | controllers/apps/cron_utils.go:123-130 | True exactly if a reference has the UID |
| `CronActive.RemoveMissing` | controllers/apps/cron_controller.go:382-402 | The walk over the list that is compacted under it leaves exactly `Swept` |
| `CronActive.DropActive` | controllers/apps/cron_controller.go:218-226 | The Replace loop leaves exactly `Swept` of all entries |
| `CronActive.RemoveFinished` | controllers/apps/cron_controller.go:351-378 | The first loop: finished workloads leave the list, up to the first workload that is unfinished, has no entry left, and is in the list read again or makes that read fail; exactly there the code turns to the fresh object or errs |
| `CronActive.TrimFinishedWorkloadsFromActiveList` | controllers/apps/cron_controller.go:351-404 | Both loops, and exactly when the code turns to a fresh object; from then on the list of the caller no longer changes |
| `CronActive.TrimOnWorkloads` | controllers/apps/cron_controller.go:351-404 | On the workloads: the entry of a finished one always leaves, that of a listed unfinished one always stays, and any other stays unless the API server does not find it |
| `CronActive.SweptIsWithout` | controllers/apps/cron_controller.go:382-402 | Only missing entries are dropped, all others stay in order |
| `CronActive.SweepHalves` | controllers/apps/cron_controller.go:382-402 | At most half of the missing entries are left |
| `CronActive.FirstMissingGoes` | controllers/apps/cron_controller.go:382-402 | The first missing entry always goes |
| `CronActive.TrimHalves` | controllers/apps/cron_controller.go:351-404 | A whole trim leaves at most half of the entries it finds missing |
| `CronActive.TrimsEmptyMissing` | controllers/apps/cron_controller.go:351-404 | As long as the same entries are missing, whichever workloads finish or are added meanwhile, after k trims at most a 2^k-th part of them is left |
| `CronActive.SweptAgree` | controllers/apps/cron_controller.go:382-402 | What is not in the list does not matter for its sweep |
| `CronActive.ReplaceLeaves` | controllers/apps/cron_controller.go:218-226 | Of n entries (n - 1) / 2 survive, so exactly lists of at most two are emptied |
| `CronActive.TrimDrops` | controllers/apps/cron_controller.go:351-404 | A whole trim takes nothing but finished and missing entries |
| `CronRuns.ScheduleNextIfPossible` | controllers/apps/cron_controller.go:179-260 | One scheduling step does to the saved state what `Schedule` says, with each of its error exits |
| `CronRuns.CreateWorkload` | controllers/apps/cron_controller.go:228-258 | Creation, AlreadyExists, and the status update that may be lost; an error exactly in the cases listed |
| `CronRuns.DueIff` | controllers/apps/cron_utils.go:54-89 | A time is due exactly if the next one after the last scheduled time, or after the creation, is not in the future; it lies within the first gap before now |
| `CronRuns.FreshPassSaves` | controllers/apps/cron_controller.go:179-260 | A pass that is let through and whose name is new creates the workload if and only if neither Replace nor the creation fails, and saves it if and only if the update does not fail either: then LastScheduleTime is the due time, the active list is the kept entries and one with the new UID and that name, and the history grows by exactly this creation and this save |
| `CronRuns.TakenPassSaves` | controllers/apps/cron_controller.go:228-258 | The same for a name that is taken: nothing is created, and exactly when the save happens |
| `CronRuns.HeldPassTrims` | controllers/apps/cron_controller.go:179-226 | A pass that is not let through does nothing but trim |
| `CronRuns.CreationIsSaved` | controllers/apps/cron_controller.go:248-258 | In every run a creation is followed at once by its save unless that very pass lost the save |
| `CronRuns.RunKeepsInv` | controllers/apps/cron_controller.go:142-260 | In every run: saved times strictly increase, nothing is created for a saved or earlier time, and two workloads of one time have a deletion between them |
| `CronRuns.StepKeepsInv` | controllers/apps/cron_controller.go:142-260 | Each pass, with any fault, and each outside deletion or creation keeps that |
| `CronRuns.TimesHaveOwnNames` | controllers/apps/cron_utils.go:183-185 | Created workloads share a name exactly if they share the scheduled time |
| `CronRuns.LastOnlyRises` | controllers/apps/cron_controller.go:252-258 | LastScheduleTime stays or rises |
| `CronRuns.AtMostOneActive` | controllers/apps/cron_controller.go:204-226 | Under a fixed Forbid or Replace policy at most one entry is ever active |
| `CronRuns.PassBoundsActive` | controllers/apps/cron_controller.go:204-226 | From longer lists a pass never makes the list longer |
| `CronRuns.SavesNoUidIff` | controllers/apps/cron_controller.go:228-258 | A pass saves a new entry without UID exactly if a time is due, the policy lets it through, no fault stops it, no entry without UID is kept, and the workload of that time already exists |
| `CronRuns.LostSaveLeadsToNoUid` | controllers/apps/cron_controller.go:228-258 | After a creation whose save was lost, any pass with the same due time, at any clock reading and under any policy, saves such an entry exactly if it gets through and keeps none |
| `CronRuns.DropsNoUidIff` | controllers/apps/cron_controller.go:142-258 | Exactly these moves drop such an entry: a trim that drops it, or a Replace loop that sweeps it away before a save, unless the saved entry again has no UID |
| `CronRuns.TrimKeepsNoUid` | controllers/apps/cron_controller.go:351-404 | A whole trim keeps it as long as the API server finds its name |
| `CronRuns.TrimDropsNoUidIff` | controllers/apps/cron_controller.go:351-404 | If nothing before it is missing, a whole trim drops it exactly if its name is not found |
| `Traffic.ComputePredictorTrafficRatios` | controllers/serving/inference_controller.go:340-358 | For every map order: each name gets its last weight times 100 divided by the total of all weights |
| `Traffic.RatioInRange` | controllers/serving/inference_controller.go:340-358 | Ratios lie in 0..100 and are monotone in the weight |
| `Traffic.ShareIsExact` | controllers/serving/inference_controller.go:340-358 | Each predictor gets the whole percentage p with p ≤ 100 · weight / total < p + 1, a missing weight counting as 100 |
| `Traffic.TotalAdds` | controllers/serving/inference_controller.go:344-352 | The total adds up over the list, a missing weight counting as 100 |
| `Traffic.LastOfNameCounts` | controllers/serving/inference_controller.go:349-352 | Of predictors with one name the last one counts |
| `Traffic.SplitIsNearlyWhole` | controllers/serving/inference_controller.go:340-358 | In every order the n ratios add up to more than 100 - n and at most 100, and to 100 exactly if no division leaves a remainder |

## Left out

- API client plumbing, events, logs, metrics, RBAC, gang scheduling, cache backends, model versions, ingress, notebook, TensorBoard and the console.
- Pod and service templates, except for the generation label and world size that the protocols read.
- The job coordinator's queues, MPI configuration, and how host-network ports are chosen and found again.
- Pods.ReconcilePods: does not delete the pods that AIMaster asks for by name or restart time, which may be of other types; only its effect on fail-over and the restart flag is modelled.
- Fail-over by restart in place, and back-off and deadline arithmetic (they are inputs of `Cleanup.TerminalPass`).
- Creation expectations and the work queue: a pass may simply run again at any time.
- CheckpointController.CheckpointIfNecessary: ends its model where the next generation would no longer fit int32.
- Services.GetServiceSlices: excludes negative index labels, for which the Go code indexes out of range.
- Services.ServicesConverge: speaks about passes that return no error, because passes that do need not converge.
- Traffic.ComputePredictorTrafficRatios: excludes a total of zero with predictors present, for which the Go code divides by zero.
- CronHistory.Cron.RefreshCronHistory: entries without creation time and negative limits are not modelled.
- CronRuns.ScheduleNextIfPossible: custom workload names, which replace the default name by one fixed name, are not modelled.
- CronSchedule.GetMostRecentScheduleTime: floating-point rounding of durations is not modelled.
- Dag.ReconcileReplicas: a failing service reconciliation is an input; what it does to services is modelled in `Services.dfy`.
- Cleanup.TerminalPass: deleting the gang, creating the model version and updating the cache are modelled by whether they fail.
- ScaleGate.ScaleIfNecessary: the master service that scale-in finds out of range is not modelled.
- Dag.LoopIsRound: asks for passes without API errors and failing pods; `Dag.ReconcileReplicas` states what other passes do.
