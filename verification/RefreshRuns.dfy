/**
 Runs of the restart handshake: passes at growing generations, Kruise, kubelet restarts, evictions and pod
 re-creation, in any order. `total(g)` is the replica total of generation `g` (each generation has one spec).
 */
module RefreshRuns {
  import opened Common
  import opened Refresh

  datatype State = State(slot: Slot, passGeneration: int, nextUid: nat)

  /** A pass works at the generation it read, which never goes back; only stale pods are attempted. */
  ghost predicate Pass(s: State, s': State, total: int -> int, immediate: bool, f: Faults) {
    && s'.passGeneration >= s.passGeneration
    && (if s.slot.pod.Some? && IsStale(s.slot.pod.value, s'.passGeneration)
        then s'.slot == Attempt(s.slot, total(s'.passGeneration), s'.passGeneration, immediate, f).slot
        else s'.slot == s.slot)
    && s'.nextUid == s.nextUid
  }

  /** Kruise reports success only after recreating the containers, which start with the annotated world size. */
  ghost predicate Kruise(s: State, s': State) {
    && s.slot.request.Some? && s.slot.pod.Some?
    && var r, pod := s.slot.request.value, s.slot.pod.value;
    && !RecreateDone(r) && r.phase != RequestFailed
    && exists phase :: s' == s.(slot := Slot(
         Some(if RecreateDone(r.(phase := phase))
              then pod.(recreatedBy := Some(r), runningWorldSize := pod.worldSize) else pod),
         Some(r.(phase := phase))))
  }

  /** The kubelet restarts a container, or the pod's phase changes, or it is marked for deletion, or it disappears. */
  ghost predicate PodChanges(s: State, s': State) {
    && s.slot.pod.Some?
    && var pod := s.slot.pod.value;
    || s' == s.(slot := s.slot.(pod := None))
    || s' == s.(slot := s.slot.(pod := Some(pod.(runningWorldSize := pod.worldSize))))
    || s' == s.(slot := s.slot.(pod := Some(pod.(terminating := true))))
    || s' == s.(slot := s.slot.(pod := Some(pod.(phaseActive := !pod.phaseActive))))
  }

  /** The reconciler re-creates a missing pod under the same name, labelled and sized for its generation. */
  ghost predicate Recreate(s: State, s': State, total: int -> int) {
    && s.slot.pod == None
    && s'.passGeneration >= s.passGeneration
    && s' == State(
         s.slot.(pod := Some(Pod(s.nextUid, true, true, false, Gen(s'.passGeneration), Some(total(s'.passGeneration)),
                                 None, Some(total(s'.passGeneration))))),
         s'.passGeneration, s.nextUid + 1)
  }

  ghost predicate Step(s: State, s': State, total: int -> int) {
    || (exists immediate, f :: Pass(s, s', total, immediate, f))
    || Kruise(s, s') || PodChanges(s, s') || Recreate(s, s', total)
  }

  /** At the start no request exists; the pod may be anything created by an earlier generation. */
  ghost predicate Init(s: State) {
    && s.slot.request == None
    && (s.slot.pod.Some? ==>
          && s.slot.pod.value.uid < s.nextUid
          && (s.slot.pod.value.generation.Gen? ==> s.slot.pod.value.generation.g <= s.passGeneration))
  }

  /**
   The containers of `pod` were recreated by a request of generation `g`, made for this very pod when it was already
   annotated with the replica total, and see that total.
   */
  predicate RecreatedFor(pod: Pod, g: int, worldSize: int) {
    && pod.recreatedBy.Some?
    && pod.recreatedBy.value.generation == g && pod.recreatedBy.value.podUid == pod.uid
    && pod.recreatedBy.value.podWorldSize == Some(worldSize)
    && pod.worldSize == Some(worldSize) && pod.runningWorldSize == Some(worldSize)
  }

  ghost predicate Bounded(s: State) {
    && (s.slot.pod.Some? ==>
          && s.slot.pod.value.uid < s.nextUid
          && (s.slot.pod.value.generation.Gen? ==> s.slot.pod.value.generation.g <= s.passGeneration))
    && (s.slot.request.Some? ==>
          && s.slot.request.value.generation <= s.passGeneration
          && s.slot.request.value.podUid < s.nextUid)
  }

  /** A request of the current generation belongs to the pod that still lacks the label, and to its size. */
  ghost predicate Tied(s: State, total: int -> int) {
    var g := s.passGeneration;
    s.slot.request.Some? && s.slot.request.value.generation == g && s.slot.pod.Some?
    && s.slot.pod.value.generation != Gen(g) ==>
      && s.slot.request.value.podUid == s.slot.pod.value.uid
      && s.slot.request.value.podWorldSize == Some(total(g))
      && s.slot.pod.value.worldSize == Some(total(g))
      && (RecreateDone(s.slot.request.value) ==> RecreatedFor(s.slot.pod.value, g, total(g)))
  }

  ghost predicate Inv(s: State, total: int -> int) {
    Bounded(s) && Tied(s, total)
  }

  lemma PassKeepsBounded(s: State, s': State, total: int -> int, immediate: bool, f: Faults)
    requires Bounded(s) && Pass(s, s', total, immediate, f)
    ensures Bounded(s')
  {
  }

  lemma PassKeepsTied(s: State, s': State, total: int -> int, immediate: bool, f: Faults)
    requires Bounded(s) && Tied(s, total) && Pass(s, s', total, immediate, f)
    ensures Tied(s', total)
  {
  }

  lemma PassKeepsInv(s: State, s': State, total: int -> int, immediate: bool, f: Faults)
    requires Inv(s, total) && Pass(s, s', total, immediate, f)
    ensures Inv(s', total)
  {
    PassKeepsBounded(s, s', total, immediate, f);
    PassKeepsTied(s, s', total, immediate, f);
  }

  lemma KruiseKeepsInv(s: State, s': State, total: int -> int)
    requires Inv(s, total) && Kruise(s, s')
    ensures Inv(s', total)
  {
  }

  lemma PodChangesKeepInv(s: State, s': State, total: int -> int)
    requires Inv(s, total) && (PodChanges(s, s') || Recreate(s, s', total))
    ensures Inv(s', total)
  {
  }

  lemma StepKeepsInv(s: State, s': State, total: int -> int)
    requires Inv(s, total) && Step(s, s', total)
    ensures Inv(s', total)
  {
    if immediate, f :| Pass(s, s', total, immediate, f) {
      PassKeepsInv(s, s', total, immediate, f);
    } else if Kruise(s, s') {
      KruiseKeepsInv(s, s', total);
    } else {
      PodChangesKeepInv(s, s', total);
    }
  }

  ghost predicate IsRun(run: seq<State>, total: int -> int) {
    && run != []
    && var front := run[..|run| - 1];
    if front == [] then Init(run[0]) else IsRun(front, total) && Step(front[|front| - 1], run[|run| - 1], total)
  }

  lemma {:induction false} RunKeepsInv(run: seq<State>, total: int -> int)
    requires IsRun(run, total)
    ensures Inv(run[|run| - 1], total)
  {
    if |run| > 1 {
      var front := run[..|run| - 1];
      RunKeepsInv(front, total);
      StepKeepsInv(front[|front| - 1], run[|run| - 1], total);
    }
  }

  /**
   Whenever, in any run, a pass advances the label of a pod that is not being deleted to generation g, the pod's
   containers were recreated for it by a request of generation g that was created after its world size had become the
   replica total of g. Requests left over from earlier rounds or earlier pods never count.
   */
  lemma LabelAdvanceIsSafe(run: seq<State>, s': State, total: int -> int, immediate: bool, f: Faults)
    requires IsRun(run, total) && Pass(run[|run| - 1], s', total, immediate, f)
    requires var slot, slot' := run[|run| - 1].slot, s'.slot;
      && slot.pod.Some? && slot'.pod.Some? && !slot'.pod.value.terminating
      && slot.pod.value.generation != slot'.pod.value.generation
    ensures var g := s'.passGeneration;
      && s'.slot.pod.value.generation == Gen(g)
      && s'.slot.pod.value.uid == run[|run| - 1].slot.pod.value.uid
      && RecreatedFor(s'.slot.pod.value, g, total(g))
    ensures var request := run[|run| - 1].slot.request;
      request.Some? && (request.value.phase == RequestCompleted || request.value.phase == RequestSucceeded)
  {
    RunKeepsInv(run, total);
  }

  /** What one attempt changes, field by field. */

  /** The pod is gone, or has begun to terminate. */
  predicate Lost(slot: Slot, slot': Slot) {
    slot.pod.Some? && (slot'.pod == None || (slot'.pod.value.terminating && !slot.pod.value.terminating))
  }

  /**
   The handshake is what decides: no immediate start of a pod that has ended, a label that is not the one of the
   generation, the right world size, and a readable request of this generation.
   */
  predicate AtRequest(slot: Slot, worldSize: int, generation: int, immediate: bool, f: Faults) {
    && slot.pod.Some?
    && !(immediate && (slot.pod.value.terminating || !slot.pod.value.phaseActive))
    && slot.pod.value.generation != Gen(generation) && slot.pod.value.worldSize == Some(worldSize)
    && !f.getRequest && slot.request.Some? && slot.request.value.generation == generation
  }

  /**
   A pod is lost exactly if its deletion is accepted (and shows: it is not just terminating behind its finalizer), and
   either an immediate start met a pod that had ended or was terminating, or the request of this generation failed.
   */
  lemma LostIff(slot: Slot, worldSize: int, generation: int, immediate: bool, f: Faults)
    requires slot.pod.Some?
    ensures var pod := slot.pod.value;
      Lost(slot, Attempt(slot, worldSize, generation, immediate, f).slot) <==>
        && !f.deletePod && !(pod.terminating && pod.finalizer)
        && ((immediate && (pod.terminating || !pod.phaseActive))
            || (AtRequest(slot, worldSize, generation, immediate, f) && slot.request.value.phase == RequestFailed))
  {
  }

  /** The label is written exactly if the request of this generation is through, or its failed pod is still terminating. */
  lemma LabelWrittenIff(slot: Slot, worldSize: int, generation: int, immediate: bool, f: Faults)
    requires slot.pod.Some?
    ensures var slot' := Attempt(slot, worldSize, generation, immediate, f).slot;
      slot'.pod.Some? && slot'.pod.value.generation != slot.pod.value.generation <==>
        && AtRequest(slot, worldSize, generation, immediate, f) && !f.patchLabel
        && (slot.request.value.phase == RequestCompleted || slot.request.value.phase == RequestSucceeded
            || (slot.request.value.phase == RequestFailed && !f.deletePod && slot.pod.value.finalizer))
    ensures var slot' := Attempt(slot, worldSize, generation, immediate, f).slot;
      slot'.pod.Some? ==> slot'.pod.value.generation in {slot.pod.value.generation, Gen(generation)}
  {
  }

  /** The world size is written exactly if it is wrong on a pod that is to be refreshed. */
  lemma SizeWrittenIff(slot: Slot, worldSize: int, generation: int, immediate: bool, f: Faults)
    requires slot.pod.Some?
    ensures var slot', pod := Attempt(slot, worldSize, generation, immediate, f).slot, slot.pod.value;
      slot'.pod.Some? && slot'.pod.value.worldSize != pod.worldSize <==>
        && !(immediate && (pod.terminating || !pod.phaseActive))
        && pod.generation != Gen(generation) && pod.worldSize != Some(worldSize) && !f.patchWorldSize
    ensures var slot' := Attempt(slot, worldSize, generation, immediate, f).slot;
      slot'.pod.Some? ==> slot'.pod.value.worldSize in {slot.pod.value.worldSize, Some(worldSize)}
  {
  }

  /**
   A request is made exactly for a pod of the right size that still lacks the label, unless one of this generation
   exists; it records the pod and its size. Requests go only to make room for it, or when they are through.
   */
  lemma RequestMadeIff(slot: Slot, worldSize: int, generation: int, immediate: bool, f: Faults)
    requires slot.pod.Some?
    ensures var slot', pod := Attempt(slot, worldSize, generation, immediate, f).slot, slot.pod.value;
      var wanted := !(immediate && (pod.terminating || !pod.phaseActive)) && pod.generation != Gen(generation)
                    && pod.worldSize == Some(worldSize) && !f.getRequest
                    && (slot.request.Some? ==> slot.request.value.generation != generation && !f.deleteRequest);
      && (wanted && !f.createRequest ==>
            slot'.request == Some(Request(generation, RequestPending, pod.uid, Some(worldSize))))
      && (wanted && f.createRequest ==> slot'.request == None)
      && (!wanted ==> slot'.request == slot.request
                      || (slot'.request == None && AtRequest(slot, worldSize, generation, immediate, f) && !f.finalizeRequest
                          && (slot.request.value.phase == RequestCompleted || slot.request.value.phase == RequestSucceeded)))
  {
  }

  /** An attempt reports completion exactly if the pod is labelled, lost, or deleted behind its finalizer without an error. */
  lemma CompletedIff(slot: Slot, worldSize: int, generation: int, immediate: bool, f: Faults)
    requires slot.pod.Some?
    ensures var r, pod := Attempt(slot, worldSize, generation, immediate, f), slot.pod.value;
      r.completed <==>
        if immediate && (pod.terminating || !pod.phaseActive) then !f.deletePod
        else r.slot.pod.Some? && r.slot.pod.value.generation == Gen(generation)
  {
  }

  /** For an active pod an immediate start changes nothing about the attempt. */
  lemma ImmediateIsOrdinary(slot: Slot, worldSize: int, generation: int, f: Faults)
    requires slot.pod.Some? && slot.pod.value.phaseActive && !slot.pod.value.terminating
    ensures Attempt(slot, worldSize, generation, true, f) == Attempt(slot, worldSize, generation, false, f)
  {
  }

  /** A request is failed only since a step of Kruise that found it not failed. */
  lemma {:induction false} FailedByKruise(run: seq<State>, total: int -> int) returns (k: nat)
    requires IsRun(run, total)
    requires var request := run[|run| - 1].slot.request; request.Some? && request.value.phase == RequestFailed
    ensures k + 1 < |run| && Kruise(run[k], run[k + 1]) && run[k].slot.request.value.phase != RequestFailed
    ensures run[k + 1].slot.request == run[|run| - 1].slot.request
  {
    var front := run[..|run| - 1];
    if front != [] {
      var s, s' := front[|front| - 1], run[|run| - 1];
      if s.slot.request == s'.slot.request {
        k := FailedByKruise(front, total);
      } else {
        OnlyKruiseFails(s, s', total);
        k := |run| - 2;
      }
    }
  }

  lemma OnlyKruiseFails(s: State, s': State, total: int -> int)
    requires Step(s, s', total) && s'.slot.request != s.slot.request
    requires s'.slot.request.Some? && s'.slot.request.value.phase == RequestFailed
    ensures Kruise(s, s')
  {
    if immediate, f :| Pass(s, s', total, immediate, f) {
      RequestMadeIff(s.slot, total(s'.passGeneration), s'.passGeneration, immediate, f);
    }
  }

  /** In every run a pass loses a live pod only after Kruise reported failure of the request for this very pod and generation. */
  lemma LiveLossIsFailure(run: seq<State>, s': State, total: int -> int, immediate: bool, f: Faults) returns (k: nat)
    requires IsRun(run, total) && Pass(run[|run| - 1], s', total, immediate, f) && Lost(run[|run| - 1].slot, s'.slot)
    requires run[|run| - 1].slot.pod.value.phaseActive && !run[|run| - 1].slot.pod.value.terminating
    ensures k + 1 < |run| && Kruise(run[k], run[k + 1])
    ensures var request := run[k + 1].slot.request;
      && request.Some? && request.value.phase == RequestFailed
      && request.value.generation == s'.passGeneration
      && request.value.podUid == run[|run| - 1].slot.pod.value.uid
  {
    var s := run[|run| - 1];
    RunKeepsInv(run, total);
    LostIff(s.slot, total(s'.passGeneration), s'.passGeneration, immediate, f);
    k := FailedByKruise(run, total);
  }

  /** Progress at a fixed generation. */

  /** 4: wrong size, 3: no request of this generation, 2: request under way, 1: containers recreated (or failed), 0: labelled or gone. */
  function Rank(slot: Slot, worldSize: int, generation: int): nat {
    if slot.pod == None || slot.pod.value.generation == Gen(generation) then 0
    else if slot.pod.value.worldSize != Some(worldSize) then 4
    else if slot.request == None || slot.request.value.generation != generation then 3
    else if !RecreateDone(slot.request.value) && slot.request.value.phase != RequestFailed then 2
    else 1
  }

  /** Without faults every attempt lowers the rank, except while Kruise is at work, when it changes nothing. */
  lemma AttemptLowersRank(slot: Slot, worldSize: int, generation: int)
    requires slot.pod.Some?
    ensures var after := Attempt(slot, worldSize, generation, false, NO_FAULTS).slot;
      var r, r' := Rank(slot, worldSize, generation), Rank(after, worldSize, generation);
      (r == 0 && after == slot) || r' < r || (r == 2 && after == slot)
  {
  }

  lemma KruiseLowersRank(s: State, s': State, worldSize: int, generation: int)
    requires Kruise(s, s')
    requires RecreateDone(s'.slot.request.value) || s'.slot.request.value.phase == RequestFailed
    ensures Rank(s'.slot, worldSize, generation) <= Rank(s.slot, worldSize, generation)
    ensures Rank(s.slot, worldSize, generation) == 2 ==> Rank(s'.slot, worldSize, generation) == 1
  {
  }

  function AttemptSlot(slot: Slot, worldSize: int, generation: int): Slot {
    if slot.pod == None then slot else Attempt(slot, worldSize, generation, false, NO_FAULTS).slot
  }

  /** Two attempts, Kruise finishing whatever is then pending, and one more attempt label the pod or replace it. */
  lemma ThreeAttemptsSuffice(slot: Slot, worldSize: int, generation: int, finish: Slot -> Slot)
    requires forall s: Slot :: Rank(s, worldSize, generation) == 2 ==> Rank(finish(s), worldSize, generation) == 1
    requires forall s: Slot :: Rank(s, worldSize, generation) != 2 ==> finish(s) == s
    ensures var two := AttemptSlot(AttemptSlot(slot, worldSize, generation), worldSize, generation);
      Rank(AttemptSlot(finish(two), worldSize, generation), worldSize, generation) == 0
  {
    var one := AttemptSlot(slot, worldSize, generation);
    var two := AttemptSlot(one, worldSize, generation);
    var done := finish(two);
    if slot.pod.Some? {
      AttemptLowersRank(slot, worldSize, generation);
    }
    if one.pod.Some? {
      AttemptLowersRank(one, worldSize, generation);
    }
    if done.pod.Some? {
      AttemptLowersRank(done, worldSize, generation);
    }
  }

  /** A failed label patch after the request was finalized sends the pod back to asking for a new recreation. */
  lemma FailedLabelStartsOver(slot: Slot, worldSize: int, generation: int)
    requires slot.pod.Some? && slot.request.Some? && Rank(slot, worldSize, generation) == 1 && RecreateDone(slot.request.value)
    ensures var after := Attempt(slot, worldSize, generation, false, NO_FAULTS.(patchLabel := true));
      after.err && Rank(after.slot, worldSize, generation) == 3
  {
  }
}
