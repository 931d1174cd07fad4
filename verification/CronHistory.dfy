/**
 The bounded history of a cron (controllers/apps/cron_controller.go, refreshCronHistory).

 Creation times are whole seconds. A workload carries the clock reading that the controller takes when it
 finds the workload finished.
 */
module CronHistory {
  import opened Common
  import opened Conditions
  import Names

  datatype Key = Key(name: string, created: nat)

  datatype Entry = Entry(name: string, created: nat, status: Option<ConditionType>, finished: Option<int>)

  datatype Workload = Workload(name: string, created: nat, status: Option<ConditionType>, finishedAt: Option<int>)

  function KeyOf(e: Entry): Key {
    Key(e.name, e.created)
  }

  function KeysOf(list: seq<Entry>): set<Key> {
    set e | e in list :: KeyOf(e)
  }

  function ToHistory(w: Workload): Entry {
    Entry(w.name, w.created, w.status, w.finishedAt)
  }

  function WorkloadKey(w: Workload): Key {
    Key(w.name, w.created)
  }

  /** The order of entries: by creation time, then by name. */

  predicate StringLess(a: string, b: string) {
    if b == [] then false
    else if a == [] then true
    else if a[0] != b[0] then a[0] < b[0]
    else StringLess(a[1..], b[1..])
  }

  predicate KeyLess(a: Key, b: Key) {
    if a.created == b.created then StringLess(a.name, b.name) else a.created < b.created
  }

  predicate Less(a: Entry, b: Entry) {
    KeyLess(KeyOf(a), KeyOf(b))
  }

  lemma {:induction false} StringLessTotal(a: string, b: string)
    ensures !StringLess(a, a)
    ensures a == b || StringLess(a, b) || StringLess(b, a)
    ensures !(StringLess(a, b) && StringLess(b, a))
  {
    if a != [] && b != [] {
      StringLessTotal(a[1..], b[1..]);
      if a[0] == b[0] && a[1..] == b[1..] {
        assert a == [a[0]] + a[1..] == [b[0]] + b[1..] == b;
      }
    } else if a != [] {
      StringLessTotal(a[1..], b);
    }
  }

  lemma {:induction false} StringLessTransitive(a: string, b: string, c: string)
    requires StringLess(a, b) && StringLess(b, c)
    ensures StringLess(a, c)
  {
    if a != [] && a[0] == b[0] == c[0] {
      StringLessTransitive(a[1..], b[1..], c[1..]);
    }
  }

  lemma KeyLessTotal(a: Key, b: Key)
    ensures !KeyLess(a, a) && (a == b || KeyLess(a, b) || KeyLess(b, a)) && !(KeyLess(a, b) && KeyLess(b, a))
  {
    StringLessTotal(a.name, b.name);
  }

  lemma KeyLessTransitive(a: Key, b: Key, c: Key)
    ensures KeyLess(a, b) && KeyLess(b, c) ==> KeyLess(a, c)
  {
    if a.created == b.created == c.created && KeyLess(a, b) && KeyLess(b, c) {
      StringLessTransitive(a.name, b.name, c.name);
    }
  }

  ghost predicate StrictlySorted(list: seq<Entry>) {
    forall i, j :: 0 <= i < j < |list| ==> Less(list[i], list[j])
  }

  ghost predicate DistinctKeys(list: seq<Entry>) {
    forall i, j :: 0 <= i < j < |list| ==> KeyOf(list[i]) != KeyOf(list[j])
  }

  ghost predicate DistinctWorkloads(ws: seq<Workload>) {
    forall i, j :: 0 <= i < j < |ws| ==> WorkloadKey(ws[i]) != WorkloadKey(ws[j])
  }

  /** sort.Sort with the order above. Keys are distinct where it matters, so it need not be stable. */

  function Insert(list: seq<Entry>, e: Entry): seq<Entry> {
    if list == [] || !Less(e, list[|list| - 1]) then list + [e]
    else Insert(list[..|list| - 1], e) + [list[|list| - 1]]
  }

  function Sort(list: seq<Entry>): seq<Entry> {
    if list == [] then [] else Insert(Sort(list[..|list| - 1]), list[|list| - 1])
  }

  lemma {:induction false} InsertMeaning(list: seq<Entry>, e: Entry)
    requires StrictlySorted(list) && KeyOf(e) !in KeysOf(list)
    ensures |Insert(list, e)| == |list| + 1
    ensures forall x :: x in Insert(list, e) <==> x == e || x in list
    ensures StrictlySorted(Insert(list, e))
  {
    if list != [] {
      var front, last := list[..|list| - 1], list[|list| - 1];
      assert list == front + [last];
      KeyLessTotal(KeyOf(e), KeyOf(last));
      if Less(e, last) {
        assert KeysOf(front) <= KeysOf(list);
        InsertMeaning(front, e);
        var r := Insert(front, e);
        forall i | 0 <= i < |r| ensures Less(r[i], last) {
          assert r[i] in r;
        }
      } else {
        forall i | 0 <= i < |list| ensures Less(list[i], e) {
          KeyLessTransitive(KeyOf(list[i]), KeyOf(last), KeyOf(e));
        }
      }
    }
  }

  lemma {:induction false} SortMeaning(list: seq<Entry>)
    requires DistinctKeys(list)
    ensures StrictlySorted(Sort(list)) && |Sort(list)| == |list|
    ensures forall x :: x in Sort(list) <==> x in list
  {
    if list != [] {
      var front, last := list[..|list| - 1], list[|list| - 1];
      assert list == front + [last];
      SortMeaning(front);
      InsertMeaning(Sort(front), last);
    }
  }

  /** What an observation does to a known entry: the status is overwritten, the finish time only set. */
  function Observed(known: Option<Entry>, e: Entry): Entry {
    if known.None? then e
    else known.value.(status := e.status, finished := if e.finished.Some? then e.finished else known.value.finished)
  }

  /** Position of a key in the list; with duplicates the last one, as in the code's index map. */
  function IndexOf(list: seq<Entry>, key: Key): (r: Option<nat>)
    ensures r.Some? ==> r.value < |list| && KeyOf(list[r.value]) == key
    ensures r.None? ==> key !in KeysOf(list)
  {
    if list == [] then None
    else if KeyOf(list[|list| - 1]) == key then Some(|list| - 1)
    else
      var r := IndexOf(list[..|list| - 1], key);
      assert list == list[..|list| - 1] + [list[|list| - 1]];
      r
  }

  function Merged(list: seq<Entry>, ws: seq<Workload>): (r: seq<Entry>)
    ensures |r| >= |list|
  {
    if ws == [] then list
    else
      var r, e := Merged(list, ws[..|ws| - 1]), ToHistory(ws[|ws| - 1]);
      var i := IndexOf(list, KeyOf(e));
      if i.Some? then r[i.value := Observed(Some(r[i.value]), e)] else r + [e]
  }

  function Truncated(list: seq<Entry>, limit: Option<nat>): seq<Entry> {
    if limit.Some? && |list| > limit.value then list[|list| - limit.value..] else list
  }

  function Refreshed(list: seq<Entry>, ws: seq<Workload>, limit: Option<nat>): seq<Entry> {
    Truncated(Sort(Merged(list, ws)), limit)
  }

  class Cron {
    var history: seq<Entry>
    const historyLimit: Option<nat>

    constructor (limit: Option<nat>)
      ensures history == [] && historyLimit == limit
    {
      history, historyLimit := [], limit;
    }

    method RefreshCronHistory(workloads: seq<Workload>)
      modifies this
      ensures history == Refreshed(old(history), workloads, historyLimit)
    {
      var index: map<string, nat> := map[];
      for i := 0 to |history|
        invariant history == old(history)
        invariant forall k :: IndexAgrees(index, history[..i], k)
      {
        assert history[..i + 1] == history[..i] + [history[i]];
        ghost var shorter := index;
        index := index[Names.HistoryKey(history[i].name, history[i].created) := i];
        IndexGrows(shorter, index, history[..i], history[..i + 1], history[i]);
      }
      assert history[..|history|] == history;
      ghost var before := history;
      for i := 0 to |workloads|
        invariant forall k :: IndexAgrees(index, before, k)
        invariant history == Merged(before, workloads[..i])
      {
        assert workloads[..i + 1][..i] == workloads[..i];
        var newHistory := ToHistory(workloads[i]);
        var nk := Names.HistoryKey(newHistory.name, newHistory.created);
        assert IndexAgrees(index, before, KeyOf(newHistory));
        if nk in index {
          var idx := index[nk];
          history := history[idx := history[idx].(status := newHistory.status)];
          if newHistory.finished != None {
            history := history[idx := history[idx].(finished := newHistory.finished)];
          }
        } else {
          history := history + [newHistory];
        }
      }
      assert workloads[..|workloads|] == workloads;
      history := Sort(history);
      var historySize := |history|;
      if historyLimit != None && historySize > historyLimit.value {
        history := history[historySize - historyLimit.value..];
      }
    }
  }

  /** The index map, keyed by strings, finds what `IndexOf` finds. */
  ghost predicate IndexAgrees(index: map<string, nat>, list: seq<Entry>, k: Key) {
    var nk, i := Names.HistoryKey(k.name, k.created), IndexOf(list, k);
    (nk in index <==> i.Some?) && (i.Some? ==> index[nk] == i.value)
  }

  lemma IndexGrows(index: map<string, nat>, index': map<string, nat>, list: seq<Entry>, list': seq<Entry>, e: Entry)
    requires forall k :: IndexAgrees(index, list, k)
    requires index' == index[Names.HistoryKey(e.name, e.created) := |list|] && list' == list + [e]
    ensures forall k :: IndexAgrees(index', list', k)
  {
    assert list'[..|list|] == list;
    forall k ensures IndexAgrees(index', list', k) {
      assert IndexAgrees(index, list, k);
      if Names.HistoryKey(k.name, k.created) == Names.HistoryKey(e.name, e.created) {
        Names.HistoryKeyInjective(k.name, k.created, e.name, e.created);
      }
    }
  }

  /** Everything ever observed, by key. */

  function Accumulated(all: map<Key, Entry>, ws: seq<Workload>): map<Key, Entry> {
    if ws == [] then all
    else
      var m, e := Accumulated(all, ws[..|ws| - 1]), ToHistory(ws[|ws| - 1]);
      m[KeyOf(e) := Observed(if KeyOf(e) in m then Some(m[KeyOf(e)]) else None, e)]
  }

  /** `list` holds, in order, the entries of `all` with the `limit` latest keys. */
  ghost predicate IsLatest(list: seq<Entry>, all: map<Key, Entry>, limit: Option<nat>) {
    && StrictlySorted(list)
    && (forall e :: e in list ==> KeyOf(e) in all && all[KeyOf(e)] == e)
    && (limit.Some? ==> |list| <= limit.value)
    && (forall q :: q in all && q !in KeysOf(list) ==> limit == Some(|list|) && Outranks(list, q))
  }

  ghost predicate Outranks(list: seq<Entry>, q: Key) {
    forall e :: e in list ==> KeyLess(q, KeyOf(e))
  }

  predicate Seen(ws: seq<Workload>, q: Key) {
    exists i :: 0 <= i < |ws| && WorkloadKey(ws[i]) == q
  }

  function SeenAs(ws: seq<Workload>, q: Key): Option<Entry> {
    if ws == [] then None
    else if WorkloadKey(ws[|ws| - 1]) == q then Some(ToHistory(ws[|ws| - 1]))
    else SeenAs(ws[..|ws| - 1], q)
  }

  /** One pass over distinct workloads, key by key. */
  function After(known: Option<Entry>, ws: seq<Workload>, q: Key): Option<Entry> {
    var seen := SeenAs(ws, q);
    if seen.None? then known else Some(Observed(known, seen.value))
  }

  lemma {:induction false} SeenAsMeaning(ws: seq<Workload>, q: Key)
    ensures SeenAs(ws, q).Some? <==> Seen(ws, q)
    ensures SeenAs(ws, q).Some? ==> KeyOf(SeenAs(ws, q).value) == q
  {
    if ws != [] {
      SeenAsMeaning(ws[..|ws| - 1], q);
    }
  }

  function Lookup(all: map<Key, Entry>, q: Key): Option<Entry> {
    if q in all then Some(all[q]) else None
  }

  lemma {:induction false} AccumulatedMeaning(all: map<Key, Entry>, ws: seq<Workload>, q: Key)
    requires DistinctWorkloads(ws)
    ensures Lookup(Accumulated(all, ws), q) == After(Lookup(all, q), ws, q)
  {
    if ws != [] {
      var front, last := ws[..|ws| - 1], ws[|ws| - 1];
      AccumulatedMeaning(all, front, q);
      SeenAsMeaning(front, q);
    }
  }

  /** The merged list, position by position: updated old entries first, then the new ones. */
  ghost predicate MergeShape(r: seq<Entry>, list: seq<Entry>, ws: seq<Workload>) {
    && |r| >= |list|
    && (forall i :: 0 <= i < |list| ==> After(Some(list[i]), ws, KeyOf(list[i])) == Some(r[i]))
    && (forall i :: |list| <= i < |r| ==> KeyOf(r[i]) !in KeysOf(list) && SeenAs(ws, KeyOf(r[i])) == Some(r[i]))
    && (forall q :: q in KeysOf(r) <==> q in KeysOf(list) || Seen(ws, q))
    && DistinctKeys(r)
  }

  lemma {:induction false} MergedMeaning(list: seq<Entry>, ws: seq<Workload>)
    requires DistinctKeys(list) && DistinctWorkloads(ws)
    ensures MergeShape(Merged(list, ws), list, ws)
  {
    if ws != [] {
      MergedMeaning(list, ws[..|ws| - 1]);
      MergeStep(Merged(list, ws[..|ws| - 1]), list, ws);
    }
  }

  lemma SeenGrows(ws: seq<Workload>, q: Key)
    requires ws != []
    ensures Seen(ws, q) <==> Seen(ws[..|ws| - 1], q) || q == WorkloadKey(ws[|ws| - 1])
  {
    SeenAsMeaning(ws, q);
    SeenAsMeaning(ws[..|ws| - 1], q);
  }

  lemma MergeStep(r: seq<Entry>, list: seq<Entry>, ws: seq<Workload>)
    requires DistinctKeys(list) && DistinctWorkloads(ws) && ws != []
    requires MergeShape(r, list, ws[..|ws| - 1])
    ensures var e := ToHistory(ws[|ws| - 1]);
      var i := IndexOf(list, KeyOf(e));
      MergeShape(if i.Some? then r[i.value := Observed(Some(r[i.value]), e)] else r + [e], list, ws)
  {
    var e := ToHistory(ws[|ws| - 1]);
    assert !Seen(ws[..|ws| - 1], KeyOf(e));
    SeenAsMeaning(ws[..|ws| - 1], KeyOf(e));
    var i := IndexOf(list, KeyOf(e));
    if i.Some? {
      OverwriteStep(r, list, ws, i.value);
    } else {
      AppendStep(r, list, ws);
    }
  }

  lemma OverwriteStep(r: seq<Entry>, list: seq<Entry>, ws: seq<Workload>, i: nat)
    requires DistinctKeys(list) && ws != [] && MergeShape(r, list, ws[..|ws| - 1])
    requires i < |list| && KeyOf(list[i]) == WorkloadKey(ws[|ws| - 1])
    requires SeenAs(ws[..|ws| - 1], KeyOf(list[i])) == None
    ensures MergeShape(r[i := Observed(Some(r[i]), ToHistory(ws[|ws| - 1]))], list, ws)
  {
    var r' := r[i := Observed(Some(r[i]), ToHistory(ws[|ws| - 1]))];
    SameKeys(r, r');
    forall q ensures q in KeysOf(r') <==> q in KeysOf(list) || Seen(ws, q) {
      SeenGrows(ws, q);
    }
  }

  lemma AppendKey(r: seq<Entry>, e: Entry)
    requires DistinctKeys(r) && KeyOf(e) !in KeysOf(r)
    ensures DistinctKeys(r + [e]) && forall q :: q in KeysOf(r + [e]) <==> q in KeysOf(r) || q == KeyOf(e)
  {
    assert forall k :: 0 <= k < |r| ==> KeyOf(r[k]) in KeysOf(r);
    assert forall x :: x in r + [e] <==> x in r || x == e;
  }

  lemma AppendStep(r: seq<Entry>, list: seq<Entry>, ws: seq<Workload>)
    requires ws != [] && MergeShape(r, list, ws[..|ws| - 1])
    requires WorkloadKey(ws[|ws| - 1]) !in KeysOf(list) && !Seen(ws[..|ws| - 1], WorkloadKey(ws[|ws| - 1]))
    ensures MergeShape(r + [ToHistory(ws[|ws| - 1])], list, ws)
  {
    var e := ToHistory(ws[|ws| - 1]);
    AppendKey(r, e);
    forall q ensures q in KeysOf(r + [e]) <==> q in KeysOf(list) || Seen(ws, q) {
      SeenGrows(ws, q);
    }
    forall i | |list| <= i < |r| ensures KeyOf(r[i]) != KeyOf(e) {
      assert r[i] in r;
    }
    assert forall i :: 0 <= i < |list| ==> list[i] in list && KeyOf(list[i]) != KeyOf(e);
  }

  lemma SameKeys(r: seq<Entry>, r': seq<Entry>)
    requires |r| == |r'| && forall j :: 0 <= j < |r| ==> KeyOf(r'[j]) == KeyOf(r[j])
    ensures KeysOf(r) == KeysOf(r')
  {
    forall q ensures q in KeysOf(r) <==> q in KeysOf(r') {
      if q in KeysOf(r) {
        var j :| 0 <= j < |r| && KeyOf(r[j]) == q;
        assert r'[j] in r';
      }
      if q in KeysOf(r') {
        var j :| 0 <= j < |r'| && KeyOf(r'[j]) == q;
        assert r[j] in r;
      }
    }
  }

  lemma KeyCount(list: seq<Entry>)
    requires StrictlySorted(list)
    ensures DistinctKeys(list) && |KeysOf(list)| == |list|
  {
    forall i, j | 0 <= i < j < |list| ensures KeyOf(list[i]) != KeyOf(list[j]) {
      KeyLessTotal(KeyOf(list[i]), KeyOf(list[j]));
    }
    CountDistinct(list);
  }

  lemma {:induction false} CountDistinct(list: seq<Entry>)
    requires DistinctKeys(list)
    ensures |KeysOf(list)| == |list|
  {
    if list != [] {
      var front, last := list[..|list| - 1], list[|list| - 1];
      CountDistinct(front);
      assert forall x :: x in list <==> x in front || x == last;
      assert KeysOf(list) == KeysOf(front) + {KeyOf(last)};
    }
  }

  /** If `limit` kept entries outrank `q`, so do all of the last `limit` entries of any longer sorted list. */
  lemma OutrankedIsCut(sorted: seq<Entry>, kept: seq<Entry>, q: Key, limit: nat)
    requires StrictlySorted(sorted) && StrictlySorted(kept) && KeysOf(kept) <= KeysOf(sorted)
    requires |kept| == limit <= |sorted| && Outranks(kept, q)
    ensures Outranks(sorted[|sorted| - limit..], q)
  {
    KeyCount(kept);
    forall j | |sorted| - limit <= j < |sorted| ensures KeyLess(q, KeyOf(sorted[j])) {
      if !KeyLess(q, KeyOf(sorted[j])) {
        var above := sorted[j + 1..];
        forall k | k in KeysOf(kept) ensures k in KeysOf(above) {
          var i :| 0 <= i < |sorted| && KeyOf(sorted[i]) == k;
          KeyLessTotal(k, KeyOf(sorted[j]));
          KeyLessTotal(q, KeyOf(sorted[j]));
          KeyLessTransitive(q, k, KeyOf(sorted[j]));
          assert i > j;
          assert above[i - j - 1] == sorted[i];
        }
        KeyCount(above);
        CountSubset(KeysOf(kept), KeysOf(above));
        assert false;
      }
    }
  }

  lemma {:induction false} CountSubset(a: set<Key>, b: set<Key>)
    requires a <= b
    ensures |a| <= |b|
  {
    if a != {} {
      var x :| x in a;
      CountSubset(a - {x}, b - {x});
    }
  }

  /** Each entry of the merged list is the up-to-date one, unless its key had been cut off before. */
  lemma MergedIsCurrent(list: seq<Entry>, all: map<Key, Entry>, ws: seq<Workload>, limit: Option<nat>, e: Entry)
    requires IsLatest(list, all, limit) && DistinctWorkloads(ws) && MergeShape(Merged(list, ws), list, ws)
    requires e in Merged(list, ws)
    ensures var all', q := Accumulated(all, ws), KeyOf(e);
      && q in all'
      && (all'[q] == e || (limit == Some(|list|) && Outranks(list, q)))
  {
    var r, q := Merged(list, ws), KeyOf(e);
    AccumulatedMeaning(all, ws, q);
    var i :| 0 <= i < |r| && r[i] == e;
    if i < |list| {
      assert list[i] in list;
      SeenAsMeaning(ws, KeyOf(list[i]));
    }
  }

  /** One refresh keeps the history the latest part of everything observed so far. */
  lemma RefreshKeepsLatest(list: seq<Entry>, all: map<Key, Entry>, ws: seq<Workload>, limit: Option<nat>)
    requires IsLatest(list, all, limit) && DistinctWorkloads(ws)
    ensures IsLatest(Refreshed(list, ws, limit), Accumulated(all, ws), limit)
  {
    KeyCount(list);
    MergedMeaning(list, ws);
    var merged := Merged(list, ws);
    SortMeaning(merged);
    var sorted, all' := Sort(merged), Accumulated(all, ws);
    var kept := Refreshed(list, ws, limit);
    assert KeysOf(sorted) == KeysOf(merged);
    forall e | e in kept ensures KeyOf(e) in all' && all'[KeyOf(e)] == e {
      assert e in merged;
      MergedIsCurrent(list, all, ws, limit, e);
      if all'[KeyOf(e)] != e {
        OutrankedIsCut(sorted, list, KeyOf(e), |list|);
        KeyLessTotal(KeyOf(e), KeyOf(e));
        assert false;
      }
    }
    forall q | q in all' && q !in KeysOf(kept) ensures limit == Some(|kept|) && Outranks(kept, q) {
      AccumulatedMeaning(all, ws, q);
      SeenAsMeaning(ws, q);
      CutIsOutranked(list, all, sorted, limit, q);
    }
  }

  lemma CutIsOutranked(list: seq<Entry>, all: map<Key, Entry>, sorted: seq<Entry>, limit: Option<nat>, q: Key)
    requires IsLatest(list, all, limit) && StrictlySorted(sorted) && KeysOf(list) <= KeysOf(sorted)
    requires |list| <= |sorted| && (q in KeysOf(sorted) || q in all) && q !in KeysOf(Truncated(sorted, limit))
    ensures limit == Some(|Truncated(sorted, limit)|) && Outranks(Truncated(sorted, limit), q)
  {
    if q in KeysOf(sorted) {
      assert Truncated(sorted, limit) != sorted;
      CutOffIsOutranked(sorted, limit.value, q);
    } else {
      OutrankedIsCut(sorted, list, q, |list|);
      assert Truncated(sorted, limit) == sorted[|sorted| - |list|..];
    }
  }

  lemma CutOffIsOutranked(sorted: seq<Entry>, limit: nat, q: Key)
    requires StrictlySorted(sorted) && limit < |sorted| && q in KeysOf(sorted)
    requires q !in KeysOf(sorted[|sorted| - limit..])
    ensures Outranks(sorted[|sorted| - limit..], q)
  {
    var cut := |sorted| - limit;
    var kept := sorted[cut..];
    var j :| 0 <= j < |sorted| && KeyOf(sorted[j]) == q;
    forall i | cut <= i < |sorted| ensures KeyOf(sorted[i]) != q {
      assert kept[i - cut] == sorted[i];
      assert sorted[i] in kept;
    }
    forall i | 0 <= i < |kept| ensures KeyLess(q, KeyOf(kept[i])) {
      assert Less(sorted[j], sorted[cut + i]);
    }
  }

  /** Whole runs: every saved refresh, oldest first. */

  function Stored(passes: seq<seq<Workload>>, limit: Option<nat>): seq<Entry> {
    if passes == [] then [] else Refreshed(Stored(passes[..|passes| - 1], limit), passes[|passes| - 1], limit)
  }

  function EverObserved(passes: seq<seq<Workload>>): map<Key, Entry> {
    if passes == [] then map[] else Accumulated(EverObserved(passes[..|passes| - 1]), passes[|passes| - 1])
  }

  /**
   After any sequence of refreshes the history is sorted, has unique keys, and holds exactly the latest
   `limit` of all workloads ever observed, each with its latest status: truncating after every pass loses
   nothing against truncating once at the end.
   */
  lemma {:induction false} HistoryIsLatest(passes: seq<seq<Workload>>, limit: Option<nat>)
    requires forall p :: 0 <= p < |passes| ==> DistinctWorkloads(passes[p])
    ensures IsLatest(Stored(passes, limit), EverObserved(passes), limit)
  {
    if passes != [] {
      var front := passes[..|passes| - 1];
      HistoryIsLatest(front, limit);
      RefreshKeepsLatest(Stored(front, limit), EverObserved(front), passes[|passes| - 1], limit);
    }
  }

  ghost function Above(all: map<Key, Entry>, q: Key): set<Key> {
    set p | p in all && KeyLess(q, p)
  }

  /** A key is in the history exactly if fewer than `limit` observed keys are later. */
  lemma KeptIffRecent(passes: seq<seq<Workload>>, limit: nat, q: Key)
    requires forall p :: 0 <= p < |passes| ==> DistinctWorkloads(passes[p])
    requires q in EverObserved(passes)
    ensures q in KeysOf(Stored(passes, Some(limit))) <==> |Above(EverObserved(passes), q)| < limit
  {
    var list, all := Stored(passes, Some(limit)), EverObserved(passes);
    HistoryIsLatest(passes, Some(limit));
    KeyCount(list);
    if q in KeysOf(list) {
      forall p | p in Above(all, q) ensures p in KeysOf(list) - {q} {
        KeyLessTotal(q, p);
      }
      CountSubset(Above(all, q), KeysOf(list) - {q});
    } else {
      CountSubset(KeysOf(list), Above(all, q));
    }
  }
}
