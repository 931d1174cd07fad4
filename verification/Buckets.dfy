/**
 Bucketing by index label: the loop shared by GetPodSlices (pkg/job_controller/pod.go) and
 GetServiceSlices (pkg/job_controller/service.go).

 An out-of-range object resizes the bucket list to its own index plus one, whatever the current length is,
 so a list that is not ascending drops buckets again.
 */
module Buckets {
  import opened Common

  /** The replica-index label: absent, not a number, or its number. */
  datatype IndexLabel = Missing | Malformed | Index(value: int)

  datatype Labelled<+T> = Labelled(rtype: ReplicaType, tag: IndexLabel, obj: T)

  predicate Indexed<T>(item: Labelled<T>) {
    item.tag.Index? && item.tag.value >= 0
  }

  /** FilterPodsForReplicaType and FilterServicesForReplicaType select by the type label. */
  function OfType<T>(items: seq<Labelled<T>>, rtype: ReplicaType): seq<Labelled<T>> {
    if items == [] then []
    else
      var rest := OfType(items[..|items| - 1], rtype);
      if items[|items| - 1].rtype == rtype then rest + [items[|items| - 1]] else rest
  }

  method FilterForReplicaType<T>(items: seq<Labelled<T>>, rtype: ReplicaType) returns (result: seq<Labelled<T>>)
    ensures result == OfType(items, rtype)
  {
    result := [];
    for i := 0 to |items|
      invariant result == OfType(items[..i], rtype)
    {
      assert items[..i + 1][..i] == items[..i];
      if items[i].rtype != rtype {
        continue;
      }
      result := result + [items[i]];
    }
    assert items[..|items|] == items;
  }

  /** It selects exactly the items of the type, item by item and in their order. */
  lemma {:induction false} OfTypeMeaning<T>(a: seq<Labelled<T>>, b: seq<Labelled<T>>, x: Labelled<T>, rtype: ReplicaType)
    ensures OfType(a + b, rtype) == OfType(a, rtype) + OfType(b, rtype)
    ensures OfType([x], rtype) == if x.rtype == rtype then [x] else []
    ensures x in OfType(a, rtype) <==> x in a && x.rtype == rtype
  {
    assert [x][..0] == [];
    if b == [] {
      assert a + b == a;
      if a != [] {
        OfTypeMeaning(a[..|a| - 1], [], x, rtype);
        assert a == a[..|a| - 1] + [a[|a| - 1]];
      }
    } else {
      OfTypeMeaning(a, b[..|b| - 1], x, rtype);
      assert (a + b)[..|a + b| - 1] == a + b[..|b| - 1];
    }
  }

  /** make([][]T, n) followed by copy. */
  function Resize<T>(slices: seq<seq<T>>, n: nat): (r: seq<seq<T>>)
    ensures |r| == n
    ensures forall i :: 0 <= i < n ==> r[i] == if i < |slices| then slices[i] else []
  {
    seq(n, i requires 0 <= i => if i < |slices| then slices[i] else [])
  }

  function Slices<T>(items: seq<Labelled<T>>, replicas: nat): (r: seq<seq<T>>)
    ensures |r| >= replicas
  {
    if items == [] then seq(replicas, _ => [])
    else
      var before := Slices(items[..|items| - 1], replicas);
      var item := items[|items| - 1];
      if !Indexed(item) then before
      else
        var index := item.tag.value;
        var room := if index >= replicas then Resize(before, index + 1) else before;
        room[index := room[index] + [item.obj]]
  }

  /** What the buckets hold. */

  /** The objects of index `j`, in list order. */
  function Select<T>(items: seq<Labelled<T>>, j: nat): seq<T> {
    if items == [] then []
    else
      var rest := Select(items[..|items| - 1], j);
      if items[|items| - 1].tag == Index(j) then rest + [items[|items| - 1].obj] else rest
  }

  /** Item by item: the object of an item goes to the bucket of its index. */
  lemma {:induction false} SelectMeaning<T>(a: seq<Labelled<T>>, b: seq<Labelled<T>>, x: Labelled<T>, j: nat)
    ensures Select(a + b, j) == Select(a, j) + Select(b, j)
    ensures Select([x], j) == if x.tag.Index? && x.tag.value == j then [x.obj] else []
  {
    assert [x][..0] == [];
    if b == [] {
      assert a + b == a;
    } else {
      SelectMeaning(a, b[..|b| - 1], x, j);
      assert (a + b)[..|a + b| - 1] == a + b[..|b| - 1];
    }
  }

  /** Position after the last object whose index is out of range but below `j`: everything before it was dropped. */
  function Since<T>(items: seq<Labelled<T>>, replicas: nat, j: nat): (p: nat)
    ensures p <= |items|
  {
    if items == [] then 0
    else
      var item := items[|items| - 1];
      if Indexed(item) && replicas <= item.tag.value < j then |items|
      else Since(items[..|items| - 1], replicas, j)
  }

  /** Number of buckets: one more than the last-listed out-of-range index. */
  function Width<T>(items: seq<Labelled<T>>, replicas: nat): (n: nat)
    ensures n >= replicas
  {
    if items == [] then replicas
    else
      var item := items[|items| - 1];
      if Indexed(item) && item.tag.value >= replicas then item.tag.value + 1
      else Width(items[..|items| - 1], replicas)
  }

  /** Every bucket holds exactly the objects of its index that no later, smaller out-of-range index cut off. */
  lemma {:induction false} BucketContents<T>(items: seq<Labelled<T>>, replicas: nat, j: nat)
    ensures |Slices(items, replicas)| == Width(items, replicas)
    ensures j < Width(items, replicas) ==>
              Slices(items, replicas)[j] == Select(items[Since(items, replicas, j)..], j)
  {
    if items != [] {
      var front, item := items[..|items| - 1], items[|items| - 1];
      BucketContents(front, replicas, j);
      var p := Since(items, replicas, j);
      if p == |items| {
        assert items[p..] == [];
      } else {
        var tail := items[p..];
        assert tail[..|tail| - 1] == front[p..];
        if j >= Width(front, replicas) {
          NothingBeyondWidth(front, replicas, j);
        }
      }
    }
  }

  lemma SlicesWidth<T>(items: seq<Labelled<T>>, replicas: nat)
    ensures |Slices(items, replicas)| == Width(items, replicas)
  {
    BucketContents(items, replicas, 0);
  }

  /** An index at or above the width was cut off after its last occurrence. */
  lemma {:induction false} NothingBeyondWidth<T>(items: seq<Labelled<T>>, replicas: nat, j: nat)
    requires j >= Width(items, replicas)
    ensures Select(items[Since(items, replicas, j)..], j) == []
  {
    if items != [] {
      var front, item := items[..|items| - 1], items[|items| - 1];
      var p := Since(items, replicas, j);
      if p == |items| {
        assert items[p..] == [];
      } else {
        NothingBeyondWidth(front, replicas, j);
        var tail := items[p..];
        assert tail[..|tail| - 1] == front[p..];
      }
    }
  }

  /** In-range buckets never lose an object. */
  lemma {:induction false} InRangeBucket<T>(items: seq<Labelled<T>>, replicas: nat, j: nat)
    requires j < replicas
    ensures Slices(items, replicas)[j] == Select(items, j)
  {
    BucketContents(items, replicas, j);
    NeverCutOff(items, replicas, j);
    assert items[0..] == items;
  }

  lemma {:induction false} NeverCutOff<T>(items: seq<Labelled<T>>, replicas: nat, j: nat)
    requires j <= replicas
    ensures Since(items, replicas, j) == 0
  {
    if items != [] {
      NeverCutOff(items[..|items| - 1], replicas, j);
    }
  }

  /** Listings with one object per index. */

  /** No two listed objects share an index, and none is negative. */
  ghost predicate OnePerIndex<T>(items: seq<Labelled<T>>) {
    && (forall p :: 0 <= p < |items| && items[p].tag.Index? ==> items[p].tag.value >= 0)
    && (forall p, q :: 0 <= p < q < |items| && items[p].tag.Index? ==> items[p].tag != items[q].tag)
  }

  ghost function Indices<T>(items: seq<Labelled<T>>): set<int> {
    set p | 0 <= p < |items| && items[p].tag.Index? :: items[p].tag.value
  }

  /** Index `j` is listed at position `p`, and no out-of-range index below it is listed later. */
  ghost predicate KeptAt<T>(items: seq<Labelled<T>>, replicas: nat, j: nat, p: nat) {
    && p < |items| && items[p].tag == Index(j)
    && forall q :: p < q < |items| && items[q].tag.Index? && replicas <= items[q].tag.value ==> items[q].tag.value >= j
  }

  ghost predicate Kept<T>(items: seq<Labelled<T>>, replicas: nat, j: nat) {
    exists p: nat :: KeptAt(items, replicas, j, p)
  }

  lemma {:induction false} SelectUnlisted<T>(items: seq<Labelled<T>>, j: nat)
    requires forall p :: 0 <= p < |items| ==> items[p].tag != Index(j)
    ensures Select(items, j) == []
  {
    if items != [] {
      SelectUnlisted(items[..|items| - 1], j);
    }
  }

  lemma {:induction false} SelectAt<T>(items: seq<Labelled<T>>, j: nat, p: nat)
    requires OnePerIndex(items) && p < |items| && items[p].tag == Index(j)
    ensures Select(items, j) == [items[p].obj]
  {
    var front := items[..|items| - 1];
    if p == |items| - 1 {
      SelectUnlisted(front, j);
    } else {
      assert front[p] == items[p];
      SelectAt(front, j, p);
    }
  }

  lemma {:induction false} SinceMeaning<T>(items: seq<Labelled<T>>, replicas: nat, j: nat)
    ensures var p := Since(items, replicas, j);
      && (p > 0 ==> Indexed(items[p - 1]) && replicas <= items[p - 1].tag.value < j)
      && (forall q :: p <= q < |items| && Indexed(items[q]) && replicas <= items[q].tag.value ==> items[q].tag.value >= j)
  {
    if items != [] {
      SinceMeaning(items[..|items| - 1], replicas, j);
    }
  }

  /** Position `p` lists the last out-of-range object. */
  ghost predicate LastOutAt<T>(items: seq<Labelled<T>>, replicas: nat, p: nat) {
    && p < |items| && Indexed(items[p]) && items[p].tag.value >= replicas
    && forall q :: p < q < |items| && Indexed(items[q]) ==> items[q].tag.value < replicas
  }

  lemma {:induction false} WidthMeaning<T>(items: seq<Labelled<T>>, replicas: nat)
    ensures Width(items, replicas) == replicas ==>
              forall q :: 0 <= q < |items| && Indexed(items[q]) ==> items[q].tag.value < replicas
    ensures Width(items, replicas) > replicas ==>
              exists p: nat :: LastOutAt(items, replicas, p) && items[p].tag == Index(Width(items, replicas) - 1)
  {
    if items != [] {
      var front, item := items[..|items| - 1], items[|items| - 1];
      WidthMeaning(front, replicas);
      if Indexed(item) && item.tag.value >= replicas {
        assert LastOutAt(items, replicas, |front|);
      } else if Width(items, replicas) > replicas {
        var p: nat :| LastOutAt(front, replicas, p) && front[p].tag == Index(Width(front, replicas) - 1);
        assert LastOutAt(items, replicas, p);
      }
    }
  }

  /** With one object per index the bucket of a kept index holds its object alone. */
  lemma KeptBucket<T>(items: seq<Labelled<T>>, replicas: nat, j: nat, p: nat)
    requires OnePerIndex(items) && j < Width(items, replicas) && KeptAt(items, replicas, j, p)
    ensures |Slices(items, replicas)| == Width(items, replicas)
    ensures Slices(items, replicas)[j] == [items[p].obj]
  {
    BucketContents(items, replicas, j);
    SinceMeaning(items, replicas, j);
    var s := Since(items, replicas, j);
    assert p >= s;
    var tail := items[s..];
    assert tail[p - s] == items[p];
    assert OnePerIndex(tail) by {
      assert forall q :: 0 <= q < |tail| ==> tail[q] == items[s + q];
    }
    SelectAt(tail, j, p - s);
  }

  /** The bucket of an index that is not kept is empty. */
  lemma LostBucket<T>(items: seq<Labelled<T>>, replicas: nat, j: nat)
    requires j < Width(items, replicas) && !Kept(items, replicas, j)
    requires forall p :: 0 <= p < |items| && items[p].tag.Index? ==> items[p].tag.value >= 0
    ensures |Slices(items, replicas)| == Width(items, replicas)
    ensures Slices(items, replicas)[j] == []
  {
    BucketContents(items, replicas, j);
    SinceMeaning(items, replicas, j);
    var s := Since(items, replicas, j);
    var tail := items[s..];
    forall q | 0 <= q < |tail| ensures tail[q].tag != Index(j) {
      if tail[q].tag == Index(j) {
        assert items[s + q].tag == Index(j);
        assert KeptAt(items, replicas, j, s + q);
      }
    }
    SelectUnlisted(tail, j);
  }

  /** The last-listed out-of-range object is always kept. */
  lemma LastOutOfRangeIsKept<T>(items: seq<Labelled<T>>, replicas: nat)
    requires OnePerIndex(items)
    requires exists j :: j in Indices(items) && j >= replicas
    ensures Width(items, replicas) > replicas
    ensures Kept(items, replicas, Width(items, replicas) - 1)
    ensures Width(items, replicas) - 1 in Indices(items)
  {
    WidthMeaning(items, replicas);
    var j :| j in Indices(items) && j >= replicas;
    var q :| 0 <= q < |items| && items[q].tag.Index? && items[q].tag.value == j;
    assert Indexed(items[q]);
    var w := Width(items, replicas) - 1;
    var p: nat :| LastOutAt(items, replicas, p) && items[p].tag == Index(w);
    assert KeptAt(items, replicas, w, p);
  }

  lemma {:induction false} NoneOutOfRange<T>(items: seq<Labelled<T>>, replicas: nat)
    requires forall j :: j in Indices(items) ==> j < replicas
    ensures Width(items, replicas) == replicas
  {
    if items != [] {
      var front, item := items[..|items| - 1], items[|items| - 1];
      assert item.tag.Index? ==> item.tag.value in Indices(items);
      assert forall p :: 0 <= p < |front| && front[p].tag.Index? ==> items[p].tag.value in Indices(items);
      NoneOutOfRange(front, replicas);
    }
  }

  /** A kept index lies below the width, and in-range indices are kept as soon as they are listed. */
  lemma KeptBounds<T>(items: seq<Labelled<T>>, replicas: nat, j: nat)
    requires OnePerIndex(items)
    ensures Kept(items, replicas, j) ==> j in Indices(items) && j < Width(items, replicas)
    ensures j < replicas && j in Indices(items) ==> Kept(items, replicas, j)
  {
    WidthMeaning(items, replicas);
    if Kept(items, replicas, j) {
      var p: nat :| KeptAt(items, replicas, j, p);
      assert Indexed(items[p]);
      if j >= replicas {
        var q: nat :| LastOutAt(items, replicas, q) && items[q].tag == Index(Width(items, replicas) - 1);
        assert p <= q;
      }
    }
    if j < replicas && j in Indices(items) {
      var p: nat :| p < |items| && items[p].tag.Index? && items[p].tag.value == j;
      assert KeptAt(items, replicas, j, p);
    }
  }
}
