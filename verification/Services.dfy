/**
 Service reconciliation (pkg/job_controller/service.go) for one replica type.

 The cluster's services are a map from index to service: names are unique and, by the lemmas of module
 Names, determine the index. A deletion removes the service at once.
 */
module Services {
  import opened Common
  import opened Buckets

  /** `terminating` is a set deletion timestamp. */
  datatype Service = Service(terminating: bool)

  /** A negative index label makes the Go code panic, hence the precondition. */
  method GetServiceSlices(services: seq<Labelled<Service>>, replicas: nat) returns (serviceSlices: seq<seq<Service>>)
    requires forall i :: 0 <= i < |services| && services[i].tag.Index? ==> services[i].tag.value >= 0
    ensures serviceSlices == Slices(services, replicas)
  {
    serviceSlices := seq(replicas, _ => []);
    for i := 0 to |services|
      invariant serviceSlices == Slices(services[..i], replicas)
    {
      assert services[..i + 1][..i] == services[..i];
      var tag := services[i].tag;
      if tag.Missing? || tag.Malformed? {
        continue;
      }
      var index := tag.value;
      if index >= replicas {
        var newServiceSlices := Resize(serviceSlices, index + 1);
        serviceSlices := newServiceSlices;
      }
      serviceSlices := serviceSlices[index := serviceSlices[index] + [services[i].obj]];
    }
    assert services[..|services|] == services;
  }

  /** The pass lists every service of the type once, in some order, possibly among objects without an index. */
  ghost predicate IsListing(services: map<int, Service>, items: seq<Labelled<Service>>) {
    && OnePerIndex(items)
    && Indices(items) == services.Keys
    && forall p :: 0 <= p < |items| && items[p].tag.Index? ==> services[items[p].tag.value] == items[p].obj
  }

  ghost function Terminating(services: map<int, Service>): set<int> {
    set j | j in services && services[j].terminating
  }

  /**
   The indices in the cluster after the loop has handled the buckets below `upto`: everything in range, the
   complement of what was out of range (terminating services stay), and the rest as it was.
   */
  ghost function Sweep(present: set<int>, terminating: set<int>, replicas: nat, upto: nat): set<int> {
    (set j | 0 <= j < upto && (j < replicas || j !in present || j in terminating)) + (set j | j in present && j >= upto)
  }

  /** API calls that fail, by index: creations and deletions, and patches of the target port (under host network). */
  datatype ApiFaults = ApiFaults(calls: set<int>, ports: set<int>)

  const NO_FAULTS := ApiFaults({}, {})

  /** The bucket at `j` makes the pass return an error: an API failure, or a service that exists but whose bucket was lost. */
  ghost predicate FailsAt(services: map<int, Service>, items: seq<Labelled<Service>>, replicas: nat, f: ApiFaults, j: nat) {
    if Kept(items, replicas, j)
    then j in services && (DeletionFails(services, replicas, f, j) || j in f.ports)
    else j in services || j in f.calls
  }

  ghost predicate DeletionFails(services: map<int, Service>, replicas: nat, f: ApiFaults, j: nat) {
    j >= replicas && j in services && !services[j].terminating && j in f.calls
  }

  /** An error at the port patch comes after the deletion. */
  ghost predicate FailsLate(services: map<int, Service>, items: seq<Labelled<Service>>, replicas: nat, f: ApiFaults, j: nat) {
    Kept(items, replicas, j) && j in services && !DeletionFails(services, replicas, f, j) && j in f.ports
  }

  class ServiceCluster {
    var services: map<int, Service>

    /** Creating a service whose name is taken fails with AlreadyExists. */
    method CreateNewService(index: int, apiFails: bool) returns (err: bool)
      modifies this
      ensures err == (apiFails || index in old(services))
      ensures services == if err then old(services) else old(services)[index := Service(false)]
    {
      err := apiFails || index in services;
      if !err {
        services := services[index := Service(false)];
      }
    }

    method DeleteService(index: int, apiFails: bool) returns (err: bool)
      modifies this
      ensures err == (apiFails || index !in old(services))
      ensures services == if err then old(services) else old(services) - {index}
    {
      err := apiFails || index !in services;
      if !err {
        services := services - {index};
      }
    }
  }

  /** One round of the loop: what happens to the bucket at `index`. `late` is an error after the bucket's main work. */
  method ReconcileBucket(cluster: ServiceCluster, serviceSlice: seq<Service>, index: nat, replicas: nat, f: ApiFaults)
    returns (err: bool, late: bool)
    requires |serviceSlice| <= 1
    requires serviceSlice != [] ==> index in cluster.services && cluster.services[index] == serviceSlice[0]
    modifies cluster
    ensures late <==> serviceSlice != [] && !DeletionFails(old(cluster.services), replicas, f, index) && index in f.ports
    ensures err <==>
      || late
      || (if serviceSlice == [] then index in f.calls || index in old(cluster.services)
          else DeletionFails(old(cluster.services), replicas, f, index))
    ensures cluster.services ==
      if err && !late then old(cluster.services)
      else if serviceSlice == [] then old(cluster.services)[index := Service(false)]
      else if index >= replicas && !serviceSlice[0].terminating then old(cluster.services) - {index}
      else old(cluster.services)
  {
    err, late := false, false;
    if |serviceSlice| > 1 {
      // too many services: warn and go on
    } else if |serviceSlice| == 0 {
      err := cluster.CreateNewService(index, index in f.calls);
    } else {
      var service := serviceSlice[0];
      if index >= replicas {
        if !service.terminating {
          err := cluster.DeleteService(index, index in f.calls);
          if err {
            return;
          }
        }
      }
      late := index in f.ports;
      err := late;
    }
  }

  /** The cluster once the buckets below `upto` are handled. */
  ghost predicate SweptTo(before: map<int, Service>, after: map<int, Service>, replicas: nat, upto: nat) {
    && after.Keys == Sweep(before.Keys, Terminating(before), replicas, upto)
    && (forall j :: j in after && j in before ==> after[j] == before[j])
    && (forall j :: j in after && j !in before ==> !after[j].terminating)
  }

  lemma SweptStep(before: map<int, Service>, m: map<int, Service>, m': map<int, Service>, replicas: nat, u: nat)
    requires SweptTo(before, m, replicas, u)
    requires m' == if u !in before then m[u := Service(false)]
                   else if u >= replicas && !before[u].terminating then m - {u} else m
    ensures SweptTo(before, m', replicas, u + 1) && (u in m <==> u in before)
  {
    SweepStep(before.Keys, Terminating(before), replicas, u);
  }

  /** One round of the loop, in terms of the services that existed before it. */
  method ReconcileBucketAt(cluster: ServiceCluster, items: seq<Labelled<Service>>, serviceSlice: seq<Service>, index: nat,
                           replicas: nat, f: ApiFaults, ghost before: map<int, Service>)
    returns (err: bool)
    requires IsListing(before, items) && index < Width(items, replicas) == |Slices(items, replicas)|
    requires serviceSlice == Slices(items, replicas)[index] && SweptTo(before, cluster.services, replicas, index)
    modifies cluster
    ensures err <==> FailsAt(before, items, replicas, f, index)
    ensures SweptTo(before, cluster.services, replicas,
                    if err && !FailsLate(before, items, replicas, f, index) then index else index + 1)
  {
    BucketOf(before, items, replicas, index);
    SweptStep(before, cluster.services,
              if index !in before then cluster.services[index := Service(false)]
              else if index >= replicas && !before[index].terminating then cluster.services - {index} else cluster.services,
              replicas, index);
    var late;
    err, late := ReconcileBucket(cluster, serviceSlice, index, replicas, f);
  }

  method ReconcileServices(cluster: ServiceCluster, services: seq<Labelled<Service>>, rtype: ReplicaType,
                           replicas: nat, f: ApiFaults)
    returns (err: bool, ghost stop: nat)
    requires IsListing(cluster.services, OfType(services, rtype))
    modifies cluster
    ensures var items := OfType(services, rtype);
      && stop <= Width(items, replicas)
      && (err <==> stop < Width(items, replicas))
      && (forall j: nat :: j < stop ==> !FailsAt(old(cluster.services), items, replicas, f, j))
      && (err ==> FailsAt(old(cluster.services), items, replicas, f, stop))
    ensures SweptTo(old(cluster.services), cluster.services, replicas,
                    if err && FailsLate(old(cluster.services), OfType(services, rtype), replicas, f, stop) then stop + 1 else stop)
  {
    var items := FilterForReplicaType(services, rtype);
    var serviceSlices := GetServiceSlices(items, replicas);
    SlicesWidth(items, replicas);
    ghost var before := cluster.services;
    err, stop := false, 0;
    for index := 0 to |serviceSlices|
      invariant stop == index && !err && SweptTo(before, cluster.services, replicas, index)
      invariant forall j: nat :: j < index ==> !FailsAt(before, items, replicas, f, j)
    {
      err := ReconcileBucketAt(cluster, items, serviceSlices[index], index, replicas, f, before);
      if err {
        return;
      }
      stop := stop + 1;
    }
  }

  /** Handling bucket `u` adds or removes index `u` alone. */
  lemma SweepStep(present: set<int>, terminating: set<int>, replicas: nat, u: nat)
    requires terminating <= present
    ensures var before, after := Sweep(present, terminating, replicas, u), Sweep(present, terminating, replicas, u + 1);
      && (u in before <==> u in present)
      && after == if u < replicas || u !in present || u in terminating then before + {u} else before - {u}
  {
  }

  lemma BucketOf(services: map<int, Service>, items: seq<Labelled<Service>>, replicas: nat, j: nat)
    requires IsListing(services, items) && j < Width(items, replicas)
    ensures |Slices(items, replicas)| == Width(items, replicas)
    ensures Slices(items, replicas)[j] == if Kept(items, replicas, j) && j in services then [services[j]] else []
    ensures Kept(items, replicas, j) ==> j in services
  {
    KeptBounds(items, replicas, j);
    if Kept(items, replicas, j) {
      var p: nat :| KeptAt(items, replicas, j, p);
      KeptBucket(items, replicas, j, p);
    } else {
      LostBucket(items, replicas, j);
    }
  }

  /**
   A pass without error, service by service: all indices in range exist then; out of range, below the last bucket, a
   service goes unless it is terminating or its bucket was lost, and what never existed is not left there.
   */
  lemma CleanPassMeaning(before: map<int, Service>, after: map<int, Service>, items: seq<Labelled<Service>>, replicas: nat,
                         f: ApiFaults)
    requires IsListing(before, items) && SweptTo(before, after, replicas, Width(items, replicas))
    requires forall j: nat :: j < Width(items, replicas) ==> !FailsAt(before, items, replicas, f, j)
    ensures forall j: nat :: j < replicas ==> j in after && (j !in before ==> !after[j].terminating)
    ensures forall j :: j in before && j < replicas ==> j in after && after[j] == before[j]
    ensures forall j :: j in before && replicas <= j < Width(items, replicas) ==>
              (j in after <==> before[j].terminating)
    ensures forall j :: j in before && j >= Width(items, replicas) ==> j in after && after[j] == before[j]
  {
    forall j | j in before ensures j >= 0 {
      assert j in Indices(items);
    }
  }

  /**
   What makes a pass fail, if no bucket is lost: a creation in range, the deletion of an out-of-range service that is
   not terminating yet, the port patch of a service that exists, or a missing out-of-range bucket whose creation fails.
   */
  lemma FailsIff(before: map<int, Service>, items: seq<Labelled<Service>>, replicas: nat, f: ApiFaults)
    requires IsListing(before, items) && Clean(items, replicas)
    ensures (exists j: nat :: j < Width(items, replicas) && FailsAt(before, items, replicas, f, j)) <==>
              exists j: nat :: j < Width(items, replicas)
                               && if j in before then j in f.ports || (j >= replicas && !before[j].terminating && j in f.calls)
                                  else j in f.calls
  {
    forall j: nat | j < Width(items, replicas)
      ensures FailsAt(before, items, replicas, f, j) <==>
                if j in before then j in f.ports || (j >= replicas && !before[j].terminating && j in f.calls) else j in f.calls
    {
      assert j in before <==> j in Indices(items);
    }
    if j: nat :| j < Width(items, replicas) && FailsAt(before, items, replicas, f, j) {
      assert if j in before then j in f.ports || (j >= replicas && !before[j].terminating && j in f.calls) else j in f.calls;
    }
  }

  /** Convergence. The lemmas below speak about cluster states as sets of indices, with no deletion pending. */

  /** The out-of-range indices below `hi` read as a binary number, index `replicas` being bit 0. */
  function Weight(present: set<int>, replicas: nat, hi: nat): nat {
    if hi <= replicas then 0
    else Weight(present, replicas, hi - 1) + if hi - 1 in present then Pow2(hi - 1 - replicas) else 0
  }

  lemma {:induction false} WeightOfComplement(s: set<int>, s': set<int>, replicas: nat, hi: nat)
    requires hi >= replicas
    requires forall j :: replicas <= j < hi ==> (j in s' <==> j !in s)
    ensures Weight(s', replicas, hi) == Pow2(hi - replicas) - 1 - Weight(s, replicas, hi)
  {
    if hi > replicas {
      WeightOfComplement(s, s', replicas, hi - 1);
    }
  }

  lemma {:induction false} WeightAbove(s: set<int>, s': set<int>, replicas: nat, lo: nat, hi: nat)
    requires replicas <= lo <= hi
    requires forall j :: lo <= j < hi ==> (j in s' <==> j in s)
    ensures Weight(s', replicas, hi) - Weight(s', replicas, lo) == Weight(s, replicas, hi) - Weight(s, replicas, lo)
  {
    if hi > lo {
      WeightAbove(s, s', replicas, lo, hi - 1);
    }
  }

  lemma {:induction false} WeightIsZero(s: set<int>, replicas: nat, hi: nat)
    ensures Weight(s, replicas, hi) == 0 <==> forall j :: replicas <= j < hi ==> j !in s
  {
    if hi > replicas {
      WeightIsZero(s, replicas, hi - 1);
      if Weight(s, replicas, hi) == 0 {
        assert hi - 1 !in s;
      }
    }
  }

  /** Sweeping up to and including a listed out-of-range index takes 1 + 2x off the number, x being its bits below that index. */
  lemma SweepCountsDown(s: set<int>, replicas: nat, last: nat, hi: nat)
    requires last in s && replicas <= last < hi
    ensures Weight(Sweep(s, {}, replicas, last + 1), replicas, hi)
         == Weight(s, replicas, hi) - 1 - 2 * Weight(s, replicas, last)
  {
    var s' := Sweep(s, {}, replicas, last + 1);
    WeightOfComplement(s, s', replicas, last);
    WeightAbove(s, s', replicas, last + 1, hi);
    assert Weight(s, replicas, last + 1) == Weight(s, replicas, last) + Pow2(last - replicas);
    assert Weight(s', replicas, last + 1) == Weight(s', replicas, last);
  }

  /** No existing service falls into a lost bucket, so a pass whose API calls succeed returns no error. */
  ghost predicate Clean<T>(items: seq<Labelled<T>>, replicas: nat) {
    forall j: nat :: j in Indices(items) && j < Width(items, replicas) ==> Kept(items, replicas, j)
  }

  ghost predicate CleanPass<T>(s: set<int>, items: seq<Labelled<T>>, replicas: nat, s': set<int>) {
    && OnePerIndex(items) && Indices(items) == s
    && Clean(items, replicas)
    && s' == Sweep(s, {}, replicas, Width(items, replicas))
  }

  /** The pass meets its first lost service at bucket `stop` and returns AlreadyExists. */
  ghost predicate ConflictPass<T>(s: set<int>, items: seq<Labelled<T>>, replicas: nat, stop: nat, s': set<int>) {
    && OnePerIndex(items) && Indices(items) == s
    && stop in s && stop < Width(items, replicas) && !Kept(items, replicas, stop)
    && (forall j: nat :: j in s && j < stop ==> Kept(items, replicas, j))
    && s' == Sweep(s, {}, replicas, stop)
  }

  /** The method's passes are of these two kinds when no API call fails. */
  lemma PassKinds(services: map<int, Service>, items: seq<Labelled<Service>>, replicas: nat, stop: nat)
    requires IsListing(services, items) && Terminating(services) == {}
    requires stop <= Width(items, replicas)
    requires forall j: nat :: j < stop ==> !FailsAt(services, items, replicas, NO_FAULTS, j)
    requires stop < Width(items, replicas) ==> FailsAt(services, items, replicas, NO_FAULTS, stop)
    ensures var s' := Sweep(services.Keys, {}, replicas, stop);
      if stop == Width(items, replicas) then CleanPass(services.Keys, items, replicas, s')
      else ConflictPass(services.Keys, items, replicas, stop, s')
  {
    forall j: nat | j in Indices(items) && j < stop ensures Kept(items, replicas, j) {
      assert !FailsAt(services, items, replicas, NO_FAULTS, j);
    }
  }

  /** A pass is clean exactly when the indices below the last-listed out-of-range one are listed in ascending order. */
  lemma CleanIffAscending<T>(items: seq<Labelled<T>>, replicas: nat)
    requires OnePerIndex(items)
    ensures Clean(items, replicas) <==>
              forall p, q :: 0 <= p < q < |items| && items[p].tag.Index? && items[q].tag.Index?
                && replicas <= items[p].tag.value < Width(items, replicas) && replicas <= items[q].tag.value
                ==> items[p].tag.value < items[q].tag.value
  {
    if Clean(items, replicas) {
      forall p, q | 0 <= p < q < |items| && items[p].tag.Index? && items[q].tag.Index?
                && replicas <= items[p].tag.value < Width(items, replicas) && replicas <= items[q].tag.value
        ensures items[p].tag.value < items[q].tag.value
      {
        var j: nat := items[p].tag.value;
        assert j in Indices(items);
        var r: nat :| KeptAt(items, replicas, j, r);
        assert r == p;
        assert items[p].tag != items[q].tag;
      }
    } else {
      var j: nat :| j in Indices(items) && j < Width(items, replicas) && !Kept(items, replicas, j);
      var p :| 0 <= p < |items| && items[p].tag.Index? && items[p].tag.value == j;
      KeptBounds(items, replicas, j);
      assert !KeptAt(items, replicas, j, p);
    }
  }

  /** Every clean pass with an out-of-range service takes 1 + 2x off the number, so the number strictly decreases. */
  lemma CleanPassCountsDown<T>(s: set<int>, items: seq<Labelled<T>>, replicas: nat, s': set<int>, hi: nat)
    requires CleanPass(s, items, replicas, s')
    requires forall j :: j in s ==> j < hi
    requires exists j :: j in s && j >= replicas
    ensures var last := Width(items, replicas) - 1;
      && last in s && replicas <= last < hi
      && Weight(s', replicas, hi) == Weight(s, replicas, hi) - 1 - 2 * Weight(s, replicas, last)
  {
    LastOutOfRangeIsKept(items, replicas);
    SweepCountsDown(s, replicas, Width(items, replicas) - 1, hi);
  }

  /** When the smallest out-of-range index is listed last the pass is clean and counts down by exactly one. */
  lemma DescendingCountsDownByOne<T>(s: set<int>, items: seq<Labelled<T>>, replicas: nat, s': set<int>, hi: nat)
    requires OnePerIndex(items) && Indices(items) == s
    requires s' == Sweep(s, {}, replicas, Width(items, replicas))
    requires forall j :: j in s ==> j < hi
    requires exists j :: j in s && j >= replicas
    requires forall j :: j in s && j >= replicas ==> j >= Width(items, replicas) - 1
    ensures CleanPass(s, items, replicas, s')
    ensures Weight(s', replicas, hi) == Weight(s, replicas, hi) - 1
  {
    LastOutOfRangeIsKept(items, replicas);
    forall j: nat | j in Indices(items) && j < Width(items, replicas) ensures Kept(items, replicas, j) {
      KeptBounds(items, replicas, j);
    }
    CleanPassCountsDown(s, items, replicas, s', hi);
    WeightIsZero(s, replicas, Width(items, replicas) - 1);
  }

  /** `states[i+1]` results from a clean pass over `states[i]` listed as `listings[i]`. */
  ghost predicate CleanRun<T>(states: seq<set<int>>, listings: seq<seq<Labelled<T>>>, replicas: nat) {
    && |states| == |listings| + 1
    && forall i :: 0 <= i < |listings| ==> CleanPass(states[i], listings[i], replicas, states[i + 1])
  }

  lemma CleanPassRange<T>(s: set<int>, items: seq<Labelled<T>>, replicas: nat, s': set<int>, hi: nat)
    requires CleanPass(s, items, replicas, s') && replicas <= hi
    requires forall j :: j in s ==> 0 <= j < hi
    ensures Width(items, replicas) <= hi
    ensures forall j :: j in s' ==> 0 <= j < hi
    ensures forall j :: 0 <= j < replicas ==> j in s'
    ensures (forall j :: j in s ==> j < replicas) ==> forall j :: j in s' ==> j < replicas
  {
    if exists j :: j in s && j >= replicas {
      LastOutOfRangeIsKept(items, replicas);
    } else {
      NoneOutOfRange(items, replicas);
    }
  }

  lemma CleanPassBounds<T>(s: set<int>, items: seq<Labelled<T>>, replicas: nat, s': set<int>, hi: nat)
    requires CleanPass(s, items, replicas, s') && replicas <= hi
    requires forall j :: j in s ==> 0 <= j < hi
    ensures forall j :: j in s' ==> 0 <= j < hi
    ensures forall j :: 0 <= j < replicas ==> j in s'
    ensures Weight(s', replicas, hi) <= Weight(s, replicas, hi)
    ensures Weight(s, replicas, hi) > 0 ==> Weight(s', replicas, hi) < Weight(s, replicas, hi)
  {
    CleanPassRange(s, items, replicas, s', hi);
    if exists j :: j in s && j >= replicas {
      CleanPassCountsDown(s, items, replicas, s', hi);
    } else {
      WeightIsZero(s, replicas, hi);
      WeightIsZero(s', replicas, hi);
    }
  }

  lemma {:induction false} RunCountsDown<T>(states: seq<set<int>>, listings: seq<seq<Labelled<T>>>, replicas: nat, hi: nat)
    requires CleanRun(states, listings, replicas) && replicas <= hi
    requires forall j :: j in states[0] ==> 0 <= j < hi
    ensures var final := states[|listings|];
      && (forall j :: j in final ==> 0 <= j < hi)
      && (|listings| >= 1 ==> forall j :: 0 <= j < replicas ==> j in final)
      && (Weight(final, replicas, hi) == 0 || Weight(final, replicas, hi) + |listings| <= Weight(states[0], replicas, hi))
  {
    if |listings| > 0 {
      var m := |listings| - 1;
      assert CleanRun(states[..m + 1], listings[..m], replicas);
      RunCountsDown(states[..m + 1], listings[..m], replicas, hi);
      assert CleanPass(states[m], listings[m], replicas, states[m + 1]);
      CleanPassBounds(states[m], listings[m], replicas, states[m + 1], hi);
    }
  }

  /**
   Clean passes converge, whatever order each one lists the services in: after as many passes as the
   initial number says (at least one), exactly the indices 0 .. replicas-1 are left.
   */
  lemma ServicesConverge<T>(states: seq<set<int>>, listings: seq<seq<Labelled<T>>>, replicas: nat, hi: nat)
    requires CleanRun(states, listings, replicas) && replicas <= hi
    requires forall j :: j in states[0] ==> 0 <= j < hi
    requires |listings| >= 1 && |listings| >= Weight(states[0], replicas, hi)
    ensures states[|listings|] == UpTo(replicas)
  {
    RunCountsDown(states, listings, replicas, hi);
    WeightIsZero(states[|listings|], replicas, hi);
  }

  /** The target is a fixed point: any pass over it is clean and changes nothing. */
  lemma TargetIsStable<T>(items: seq<Labelled<T>>, replicas: nat)
    requires OnePerIndex(items) && Indices(items) == UpTo(replicas)
    ensures CleanPass(Indices(items), items, replicas, Indices(items))
  {
    NoneOutOfRange(items, replicas);
    forall j: nat | j in Indices(items) ensures Kept(items, replicas, j) {
      KeptBounds(items, replicas, j);
    }
    assert Sweep(Indices(items), {}, replicas, Width(items, replicas)) == Indices(items);
  }

  function Listing(indices: seq<int>): seq<Labelled<()>> {
    seq(|indices|, i requires 0 <= i < |indices| => Labelled(Worker, Index(indices[i]), ()))
  }

  /**
   Passes that return AlreadyExists need not converge: with one replica and services 0, 1, 3, 4 two such
   passes lead back to the start.
   */
  lemma ConflictsCanCycle()
    ensures ConflictPass({0, 1, 3, 4}, Listing([0, 3, 1, 4]), 1, 3, {0, 2, 3, 4})
    ensures ConflictPass({0, 2, 3, 4}, Listing([0, 3, 2, 4]), 1, 3, {0, 1, 3, 4})
  {
    CycleStep(1, 2);
    CycleStep(2, 1);
  }

  lemma CycleStep(a: int, b: int)
    requires (a == 1 && b == 2) || (a == 2 && b == 1)
    ensures ConflictPass({0, a, 3, 4}, Listing([0, 3, a, 4]), 1, 3, {0, b, 3, 4})
  {
    var items := Listing([0, 3, a, 4]);
    assert items[0].tag == Index(0) && items[1].tag == Index(3) && items[2].tag == Index(a) && items[3].tag == Index(4);
    assert Indices(items) == {0, a, 3, 4} by {
      assert items[0].tag.value in Indices(items);
      assert items[1].tag.value in Indices(items);
      assert items[2].tag.value in Indices(items);
      assert items[3].tag.value in Indices(items);
    }
    assert Width(items, 1) == 5;
    assert KeptAt(items, 1, 0, 0) && KeptAt(items, 1, a, 2);
    assert !Kept(items, 1, 3);
    assert Sweep({0, a, 3, 4}, {}, 1, 3) == {0, b, 3, 4};
  }
}
