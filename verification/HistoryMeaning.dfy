/**
 What a stored cron history means on creation times, names and observations: the theorems of module CronHistory,
 without its order and its merge.
 */
module HistoryMeaning {
  import opened Common
  import opened CronHistory

  /** At the first place where they differ `a` has the smaller character, or `a` ends there. */
  ghost predicate NameBefore(a: string, b: string) {
    exists k :: 0 <= k <= |a| && k < |b| && FirstDifference(a, b, k)
  }

  predicate FirstDifference(a: string, b: string, k: nat)
    requires k <= |a| && k < |b|
  {
    a[..k] == b[..k] && (k == |a| || a[k] < b[k])
  }

  lemma {:induction false} StringLessMeaning(a: string, b: string)
    ensures StringLess(a, b) <==> NameBefore(a, b)
  {
    if b != [] {
      if a == [] || a[0] != b[0] {
        assert (a == [] || a[0] < b[0]) ==> FirstDifference(a, b, 0);
      } else {
        StringLessMeaning(a[1..], b[1..]);
        if k :| 0 <= k <= |a[1..]| && k < |b[1..]| && FirstDifference(a[1..], b[1..], k) {
          assert a[..k + 1] == [a[0]] + a[1..][..k] == b[..k + 1];
          assert FirstDifference(a, b, k + 1);
        }
        if k :| 0 <= k <= |a| && k < |b| && FirstDifference(a, b, k) {
          assert k > 0;
          assert a[1..][..k - 1] == a[..k][1..] == b[..k][1..] == b[1..][..k - 1];
          assert FirstDifference(a[1..], b[1..], k - 1);
        }
      }
    }
  }

  /** Later is what was created later, or at the same time under a larger name. */
  lemma KeyLessMeaning(q: Key, p: Key)
    ensures KeyLess(q, p) <==> q.created < p.created || (q.created == p.created && NameBefore(q.name, p.name))
  {
    StringLessMeaning(q.name, p.name);
  }

  /** Creation times never go down along the stored history, and names go up within one time. */
  lemma StoredAscends(passes: seq<seq<Workload>>, limit: Option<nat>, i: nat, j: nat)
    requires forall p :: 0 <= p < |passes| ==> DistinctWorkloads(passes[p])
    requires i < j < |Stored(passes, limit)|
    ensures var a, b := Stored(passes, limit)[i], Stored(passes, limit)[j];
      a.created < b.created || (a.created == b.created && NameBefore(a.name, b.name))
  {
    HistoryIsLatest(passes, limit);
    KeyLessMeaning(KeyOf(Stored(passes, limit)[i]), KeyOf(Stored(passes, limit)[j]));
  }

  /** What was observed and is not stored was created before everything stored, or with it under a smaller name. */
  lemma CutIsOlder(passes: seq<seq<Workload>>, limit: Option<nat>, q: Key, e: Entry)
    requires forall p :: 0 <= p < |passes| ==> DistinctWorkloads(passes[p])
    requires q in EverObserved(passes) && e in Stored(passes, limit)
    requires forall x :: x in Stored(passes, limit) ==> x.name != q.name || x.created != q.created
    ensures limit == Some(|Stored(passes, limit)|)
    ensures q.created < e.created || (q.created == e.created && NameBefore(q.name, e.name))
  {
    HistoryIsLatest(passes, limit);
    assert q !in KeysOf(Stored(passes, limit));
    KeyLessMeaning(q, KeyOf(e));
  }

  /** The observed workloads created after `q`, or with it under a larger name. */
  ghost function CreatedAfter(all: map<Key, Entry>, q: Key): set<Key> {
    set p | p in all && (q.created < p.created || (q.created == p.created && NameBefore(q.name, p.name)))
  }

  /** An observed workload is stored exactly if fewer than `limit` observed ones were created after it. */
  lemma StoredIffFewNewer(passes: seq<seq<Workload>>, limit: nat, q: Key)
    requires forall p :: 0 <= p < |passes| ==> DistinctWorkloads(passes[p])
    requires q in EverObserved(passes)
    ensures (exists e :: e in Stored(passes, Some(limit)) && e.name == q.name && e.created == q.created) <==>
              |CreatedAfter(EverObserved(passes), q)| < limit
  {
    KeptIffRecent(passes, limit, q);
    forall p ensures KeyLess(q, p) <==> q.created < p.created || (q.created == p.created && NameBefore(q.name, p.name)) {
      KeyLessMeaning(q, p);
    }
    assert CreatedAfter(EverObserved(passes), q) == Above(EverObserved(passes), q);
    if e :| e in Stored(passes, Some(limit)) && e.name == q.name && e.created == q.created {
      assert KeyOf(e) == q;
    }
  }

  /** Observations. */

  /** Workload `i` of pass `p` is the one named `q`. */
  predicate ObservedAt(passes: seq<seq<Workload>>, q: Key, p: nat, i: nat) {
    p < |passes| && i < |passes[p]| && passes[p][i].name == q.name && passes[p][i].created == q.created
  }

  ghost predicate ObservedIn(passes: seq<seq<Workload>>, q: Key, p: nat) {
    exists i: nat :: ObservedAt(passes, q, p, i)
  }

  lemma {:induction false} SeenAt(ws: seq<Workload>, q: Key) returns (i: nat)
    requires SeenAs(ws, q).Some?
    ensures i < |ws| && ws[i].name == q.name && ws[i].created == q.created
    ensures SeenAs(ws, q) == Some(Entry(q.name, q.created, ws[i].status, ws[i].finishedAt))
  {
    if WorkloadKey(ws[|ws| - 1]) == q {
      i := |ws| - 1;
    } else {
      i := SeenAt(ws[..|ws| - 1], q);
    }
  }

  lemma NotSeen(passes: seq<seq<Workload>>, q: Key, p: nat)
    requires p < |passes| && SeenAs(passes[p], q).None?
    ensures !ObservedIn(passes, q, p)
  {
    SeenAsMeaning(passes[p], q);
    assert forall i :: 0 <= i < |passes[p]| ==> WorkloadKey(passes[p][i]) != q;
  }

  /** The status kept for a workload is the one it was last observed with. */
  lemma {:induction false} StatusIsLatest(passes: seq<seq<Workload>>, q: Key) returns (p: nat, i: nat)
    requires forall p :: 0 <= p < |passes| ==> DistinctWorkloads(passes[p])
    requires q in EverObserved(passes)
    ensures ObservedAt(passes, q, p, i) && EverObserved(passes)[q].status == passes[p][i].status
    ensures forall later :: p < later < |passes| ==> !ObservedIn(passes, q, later)
  {
    var n := |passes| - 1;
    var front, ws := passes[..n], passes[n];
    AccumulatedMeaning(EverObserved(front), ws, q);
    if SeenAs(ws, q).Some? {
      i := SeenAt(ws, q);
      p := n;
    } else {
      p, i := StatusIsLatest(front, q);
      NotSeen(passes, q, n);
      forall later | p < later < |passes| ensures !ObservedIn(passes, q, later) {
        if j: nat :| ObservedAt(passes, q, later, j) {
          assert later < n ==> ObservedAt(front, q, later, j);
          assert later < n ==> ObservedIn(front, q, later);
          assert later == n ==> ObservedIn(passes, q, n);
        }
      }
    }
  }

  /** The finish time kept is that of the last observation which found the workload finished; a later one never clears it. */
  lemma {:induction false} FinishIsLatest(passes: seq<seq<Workload>>, q: Key) returns (p: nat, i: nat)
    requires forall p :: 0 <= p < |passes| ==> DistinctWorkloads(passes[p])
    requires q in EverObserved(passes)
    ensures EverObserved(passes)[q].finished.Some? ==>
              ObservedAt(passes, q, p, i) && passes[p][i].finishedAt == EverObserved(passes)[q].finished
    ensures forall m: nat, j: nat :: (EverObserved(passes)[q].finished.Some? ==> p < m) && ObservedAt(passes, q, m, j) ==>
              passes[m][j].finishedAt == None
  {
    var n := |passes| - 1;
    var front, ws := passes[..n], passes[n];
    AccumulatedMeaning(EverObserved(front), ws, q);
    p, i := 0, 0;
    if q in EverObserved(front) {
      p, i := FinishIsLatest(front, q);
    } else {
      NeverObserved(front, q);
    }
    var was := p;
    if SeenAs(ws, q).Some? {
      var k := SeenAt(ws, q);
      if ws[k].finishedAt.Some? {
        p, i := n, k;
      }
      forall j: nat | ObservedAt(passes, q, n, j) ensures j == k {
        assert WorkloadKey(ws[j]) == q == WorkloadKey(ws[k]);
      }
    } else {
      NotSeen(passes, q, n);
    }
    forall m: nat, j: nat | (EverObserved(passes)[q].finished.Some? ==> p < m) && ObservedAt(passes, q, m, j)
      ensures passes[m][j].finishedAt == None
    {
      if m < n {
        assert ObservedAt(front, q, m, j) && ObservedIn(front, q, m);
      } else {
        assert ObservedIn(passes, q, n);
      }
    }
  }

  lemma {:induction false} NeverObserved(passes: seq<seq<Workload>>, q: Key)
    requires forall p :: 0 <= p < |passes| ==> DistinctWorkloads(passes[p])
    ensures q in EverObserved(passes) <==> exists p: nat :: ObservedIn(passes, q, p)
  {
    if passes != [] {
      var n := |passes| - 1;
      var front, ws := passes[..n], passes[n];
      NeverObserved(front, q);
      AccumulatedMeaning(EverObserved(front), ws, q);
      if SeenAs(ws, q).Some? {
        var k := SeenAt(ws, q);
        assert ObservedAt(passes, q, n, k) && ObservedIn(passes, q, n);
      } else {
        NotSeen(passes, q, n);
        if p: nat :| ObservedIn(front, q, p) {
          var i: nat :| ObservedAt(front, q, p, i);
          assert ObservedAt(passes, q, p, i) && ObservedIn(passes, q, p);
        }
        if p: nat :| ObservedIn(passes, q, p) {
          var i: nat :| ObservedAt(passes, q, p, i);
          assert ObservedAt(front, q, p, i) && ObservedIn(front, q, p);
        }
      }
    }
  }

  /** So each stored entry has the status of the last observation of its workload. */
  lemma StoredStatus(passes: seq<seq<Workload>>, limit: Option<nat>, e: Entry) returns (p: nat, i: nat)
    requires forall p :: 0 <= p < |passes| ==> DistinctWorkloads(passes[p])
    requires e in Stored(passes, limit)
    ensures var q := Key(e.name, e.created);
      && ObservedAt(passes, q, p, i) && e.status == passes[p][i].status
      && forall later :: p < later < |passes| ==> !ObservedIn(passes, q, later)
  {
    HistoryIsLatest(passes, limit);
    p, i := StatusIsLatest(passes, KeyOf(e));
  }
}
