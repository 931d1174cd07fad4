/**
 The restart handshake of one stale pod (restartStalePod and restartPodInKruiseProtocol in
 controllers/pytorch/elastic_scale.go).

 The pod and the ContainerRecreateRequest share a name. A pass at generation `g` first writes the world size of
 that generation, then asks Kruise to recreate the containers, and finally labels the pod; each pass does at most
 one of these and may fail after any API call.
 */
module Refresh {
  import opened Common

  /** The generation label: absent, not a number, or its number. */
  datatype GenerationLabel = NoLabel | BadLabel | Gen(g: int)

  datatype RequestPhase = RequestPending | RequestRecreating | RequestSucceeded | RequestCompleted | RequestFailed

  /**
   `podUid` is the pod the request was created for (its owner reference), and `podWorldSize` records the world size
   that this pod was annotated with at that moment.
   */
  datatype Request = Request(generation: int, phase: RequestPhase, podUid: nat, podWorldSize: Option<int>)

  /**
   `finalizer` is the preempt protector that elastic pods carry: a pod with it only becomes terminating when deleted.
   The last two fields record what happened inside the pod: the request that last recreated its containers, and the
   world size they started with.
   */
  datatype Pod = Pod(
    uid: nat,
    phaseActive: bool,
    finalizer: bool,
    terminating: bool,
    generation: GenerationLabel,
    worldSize: Option<int>,
    recreatedBy: Option<Request>,
    runningWorldSize: Option<int>)

  /** What the API server stores under one pod name. */
  datatype Slot = Slot(pod: Option<Pod>, request: Option<Request>)

  /** API calls that fail in one attempt; a crash is the failure of all calls after some point. */
  datatype Faults = Faults(
    deletePod: bool, patchWorldSize: bool, getRequest: bool, deleteRequest: bool, createRequest: bool,
    finalizeRequest: bool, patchLabel: bool)

  const NO_FAULTS := Faults(false, false, false, false, false, false, false)

  datatype Outcome = Outcome(slot: Slot, completed: bool, err: bool)

  predicate IsStale(pod: Pod, generation: int) {
    pod.generation == NoLabel || (pod.generation.Gen? && pod.generation.g < generation)
  }

  predicate RecreateDone(r: Request) {
    r.phase == RequestCompleted || r.phase == RequestSucceeded
  }

  predicate IsPodActive(pod: Pod) {
    pod.phaseActive && !pod.terminating
  }

  /** The slot after the API server accepted a deletion of the pod. */
  function Removed(slot: Slot): Slot
    requires slot.pod.Some?
  {
    slot.(pod := if slot.pod.value.finalizer then Some(slot.pod.value.(terminating := true)) else None)
  }

  /** Labelling the pod; a pod that is gone cannot be patched. */
  function Label(slot: Slot, generation: int, fails: bool): Outcome {
    if fails || slot.pod == None then Outcome(slot, false, true)
    else Outcome(slot.(pod := Some(slot.pod.value.(generation := Gen(generation)))), true, false)
  }

  /** One attempt on an existing pod. */
  function Attempt(slot: Slot, worldSize: int, generation: int, immediate: bool, f: Faults): Outcome
    requires slot.pod.Some?
  {
    var pod := slot.pod.value;
    var created := slot.(request := Some(Request(generation, RequestPending, pod.uid, pod.worldSize)));
    if immediate && !IsPodActive(pod) then
      if f.deletePod then Outcome(slot, false, true) else Outcome(Removed(slot), true, false)
    else if pod.generation == Gen(generation) then
      Outcome(slot, true, false)
    else if pod.worldSize != Some(worldSize) then
      if f.patchWorldSize then Outcome(slot, false, true)
      else Outcome(slot.(pod := Some(pod.(worldSize := Some(worldSize)))), false, false)
    else if f.getRequest then
      Outcome(slot, false, true)
    else if slot.request == None then
      if f.createRequest then Outcome(slot, false, true) else Outcome(created, false, false)
    else if slot.request.value.generation != generation then
      if f.deleteRequest then Outcome(slot, false, true)
      else if f.createRequest then Outcome(slot.(request := None), false, true)
      else Outcome(created, false, false)
    else if slot.request.value.phase == RequestFailed then
      if f.deletePod then Outcome(slot, false, true) else Label(Removed(slot), generation, f.patchLabel)
    else if !RecreateDone(slot.request.value) then
      Outcome(slot, false, false)
    else
      Label(if f.finalizeRequest then slot else slot.(request := None), generation, f.patchLabel)
  }

  type PodId = nat

  class Cluster {
    var slots: map<PodId, Slot>

    /** A plain deletion by the API client, which leaves the finalizer to whoever owns it. */
    method DeletePod(id: PodId, fails: bool) returns (err: bool)
      requires id in slots && slots[id].pod.Some?
      modifies this
      ensures err == fails
      ensures slots == if err then old(slots) else old(slots)[id := Removed(old(slots)[id])]
    {
      err := fails;
      if !err {
        var pod := slots[id].pod.value;
        if pod.finalizer {
          slots := slots[id := slots[id].(pod := Some(pod.(terminating := true)))];
        } else {
          slots := slots[id := slots[id].(pod := None)];
        }
      }
    }

    method RecreatePodContainers(id: PodId, generation: int, fails: bool) returns (err: bool)
      requires id in slots && slots[id].pod.Some?
      modifies this
      ensures err == fails
      ensures var pod := old(slots)[id].pod.value;
        slots == if err then old(slots) else old(slots)[id := old(slots)[id].(request :=
          Some(Request(generation, RequestPending, pod.uid, pod.worldSize)))]
    {
      err := fails;
      if !err {
        var pod := slots[id].pod.value;
        slots := slots[id := slots[id].(request := Some(Request(generation, RequestPending, pod.uid, pod.worldSize)))];
      }
    }

    method RestartPodInKruiseProtocol(id: PodId, worldSize: int, generation: int, f: Faults)
      returns (completed: bool, err: bool)
      requires id in slots && slots[id].pod.Some? && slots[id].pod.value.generation != Gen(generation)
      modifies this
      ensures id in slots && slots == old(slots)[id := slots[id]]
      ensures Attempt(old(slots)[id], worldSize, generation, false, f)
           == if completed then Label(slots[id], generation, f.patchLabel) else Outcome(slots[id], false, err)
    {
      var pod := slots[id].pod.value;
      if pod.worldSize != Some(worldSize) {
        if f.patchWorldSize {
          return false, true;
        }
        slots := slots[id := slots[id].(pod := Some(pod.(worldSize := Some(worldSize))))];
        return false, false;
      }
      if f.getRequest {
        return false, true;
      }
      if slots[id].request == None {
        err := RecreatePodContainers(id, generation, f.createRequest);
        return false, err;
      }
      var crr := slots[id].request.value;
      if crr.generation != generation {
        if f.deleteRequest {
          return false, true;
        }
        slots := slots[id := slots[id].(request := None)];
        err := RecreatePodContainers(id, generation, f.createRequest);
        return false, err;
      }
      if crr.phase == RequestFailed {
        err := DeletePod(id, f.deletePod);
        return !err, err;
      }
      var recreateDone := crr.phase == RequestCompleted || crr.phase == RequestSucceeded;
      if !recreateDone {
        return false, false;
      }
      if !f.finalizeRequest {
        slots := slots[id := slots[id].(request := None)];
      }
      return true, false;
    }

    method RestartStalePod(id: PodId, worldSize: int, generation: int, immediate: bool, f: Faults)
      returns (completed: bool, err: bool)
      requires id in slots && slots[id].pod.Some?
      modifies this
      ensures id in slots
      ensures slots == old(slots)[id := slots[id]]
      ensures Outcome(slots[id], completed, err) == Attempt(old(slots)[id], worldSize, generation, immediate, f)
    {
      var pod := slots[id].pod.value;
      if immediate && !IsPodActive(pod) {
        err := DeletePod(id, f.deletePod);
        return !err, err;
      }
      if pod.generation == Gen(generation) {
        return true, false;
      }
      completed, err := RestartPodInKruiseProtocol(id, worldSize, generation, f);
      if !completed {
        return false, err;
      }
      if f.patchLabel || slots[id].pod == None {
        return false, true;
      }
      slots := slots[id := slots[id].(pod := Some(slots[id].pod.value.(generation := Gen(generation))))];
      return true, false;
    }
  }
}
