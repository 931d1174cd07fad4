/**
 The unsynchronised stale-pod counter of a scaling pass (the worker goroutines of scale in
 controllers/pytorch/elastic_scale.go), and when it is exact, for any number of goroutines and every schedule.
 */
module ScaleCounter {
  /** A worker goroutine: its restart, then `total--` as a load and a store. */
  datatype Goroutine = NotStarted | Restarted | Loaded(value: int) | Exited(stored: bool)

  datatype Counter = Counter(total: int, goroutines: seq<Goroutine>)

  /** Goroutine `i` takes one step; any goroutine may be the next one. */
  ghost predicate CounterStep(c: Counter, c': Counter, i: nat) {
    && i < |c.goroutines|
    && match c.goroutines[i]
       case NotStarted => c' == c.(goroutines := c.goroutines[i := Restarted]) || c' == c.(goroutines := c.goroutines[i := Exited(false)])
       case Restarted => c' == c.(goroutines := c.goroutines[i := Loaded(c.total)])
       case Loaded(value) => c' == Counter(value - 1, c.goroutines[i := Exited(true)])
       case Exited(_) => false
  }

  function Stored(gs: seq<Goroutine>): (n: nat)
    ensures n <= |gs|
    ensures n == |gs| ==> forall i :: 0 <= i < |gs| ==> gs[i] == Exited(true)
  {
    if gs == [] then 0 else Stored(gs[1..]) + if gs[0] == Exited(true) then 1 else 0
  }

  lemma {:induction false} StoredAfterUpdate(gs: seq<Goroutine>, i: nat, g: Goroutine)
    requires i < |gs|
    ensures Stored(gs[i := g]) == Stored(gs) - (if gs[i] == Exited(true) then 1 else 0) + (if g == Exited(true) then 1 else 0)
  {
    if i == 0 {
      assert gs[0 := g][1..] == gs[1..];
    } else {
      StoredAfterUpdate(gs[1..], i - 1, g);
      assert gs[i := g][1..] == gs[1..][i - 1 := g];
    }
  }

  /** Neither the counter nor a loaded value has fallen by more than the number of finished stores. */
  ghost predicate CounterInv(initial: int, c: Counter) {
    && initial - Stored(c.goroutines) <= c.total <= initial
    && forall i :: 0 <= i < |c.goroutines| && c.goroutines[i].Loaded? ==>
         initial - Stored(c.goroutines) <= c.goroutines[i].value <= initial
  }

  lemma CounterStepKeepsInv(initial: int, c: Counter, c': Counter, i: nat)
    requires CounterInv(initial, c) && CounterStep(c, c', i)
    ensures CounterInv(initial, c')
  {
    StoredAfterUpdate(c.goroutines, i, c'.goroutines[i]);
  }

  ghost predicate CounterRun(run: seq<Counter>, schedule: seq<nat>) {
    && |run| == |schedule| + 1
    && forall k :: 0 <= k < |schedule| ==> CounterStep(run[k], run[k + 1], schedule[k])
  }

  /**
   Under every interleaving the final counter is at least the initial one minus the number of completed workers: lost
   updates can only leave it too high, so it reaches zero only when nothing is left.
   */
  lemma {:induction false} CounterNeverUndershoots(run: seq<Counter>, schedule: seq<nat>)
    requires CounterRun(run, schedule)
    requires forall i :: 0 <= i < |run[0].goroutines| ==> run[0].goroutines[i] == NotStarted
    ensures CounterInv(run[0].total, run[|schedule|])
    ensures |run[|schedule|].goroutines| == |run[0].goroutines|
  {
    var k := |schedule|;
    if k == 0 {
      NoneStored(run[0].goroutines);
    } else {
      assert CounterRun(run[..k], schedule[..k - 1]);
      CounterNeverUndershoots(run[..k], schedule[..k - 1]);
      CounterStepKeepsInv(run[0].total, run[k - 1], run[k], schedule[k - 1]);
    }
  }

  lemma {:induction false} NoneStored(gs: seq<Goroutine>)
    requires forall i :: 0 <= i < |gs| ==> gs[i] == NotStarted
    ensures Stored(gs) == 0
  {
    if gs != [] {
      NoneStored(gs[1..]);
    }
  }

  /** Steps still to be taken. */
  function Remaining(gs: seq<Goroutine>): nat {
    if gs == [] then 0
    else Remaining(gs[1..]) + match gs[0] case NotStarted => 3 case Restarted => 2 case Loaded(_) => 1 case Exited(_) => 0
  }

  lemma {:induction false} RemainingFalls(gs: seq<Goroutine>, i: nat, g: Goroutine)
    requires i < |gs|
    requires match gs[i] case NotStarted => !g.NotStarted? case Restarted => g.Loaded? case Loaded(_) => g.Exited? case Exited(_) => false
    ensures Remaining(gs[i := g]) < Remaining(gs)
  {
    if i == 0 {
      assert gs[0 := g][1..] == gs[1..];
    } else {
      RemainingFalls(gs[1..], i - 1, g);
      assert gs[i := g][1..] == gs[1..][i - 1 := g];
    }
  }

  /** How many of the goroutines complete; the others fail or are not done yet. */
  function Completions(completes: seq<bool>): nat {
    if completes == [] then 0 else Completions(completes[1..]) + if completes[0] then 1 else 0
  }

  function Last(run: seq<Counter>): Counter
    requires run != []
  {
    run[|run| - 1]
  }

  ghost predicate Ends(gs: seq<Goroutine>, completes: seq<bool>) {
    |gs| == |completes| && forall i :: 0 <= i < |gs| ==> gs[i] == Exited(completes[i])
  }

  function Start(initial: int, n: nat): Counter {
    Counter(initial, seq(n, _ => NotStarted))
  }

  /** A schedule of all goroutines from start to exit in which exactly those with `completes` complete. */
  ghost predicate CompleteRun(run: seq<Counter>, schedule: seq<nat>, initial: int, completes: seq<bool>) {
    CounterRun(run, schedule) && run[0] == Start(initial, |completes|) && Ends(Last(run).goroutines, completes)
  }

  /** Tickets of the semaphore: one for each worker, but at most 100. */
  function Tickets(workers: nat): nat {
    if workers < 100 then workers else 100
  }

  /** Goroutines before the k-th that have not exited. */
  function Unfinished(gs: seq<Goroutine>, k: nat): nat
    requires k <= |gs|
  {
    if k == 0 then 0 else Unfinished(gs, k - 1) + if gs[k - 1].Exited? then 0 else 1
  }

  /** Goroutines get their tickets in list order, so the k-th runs only while a ticket is left by the earlier ones. */
  ghost predicate Admitted(run: seq<Counter>, schedule: seq<nat>, tickets: nat)
    requires CounterRun(run, schedule)
  {
    forall k :: 0 <= k < |schedule| ==> TicketLeft(run[k], schedule[k], tickets)
  }

  ghost predicate TicketLeft(c: Counter, i: nat, tickets: nat) {
    i < |c.goroutines| && Unfinished(c.goroutines, i) < tickets
  }

  /** Two goroutines are between their load and their store. */
  ghost predicate Overlap(c: Counter) {
    exists i, j :: 0 <= i < j < |c.goroutines| && c.goroutines[i].Loaded? && c.goroutines[j].Loaded?
  }

  ghost predicate Races(run: seq<Counter>) {
    exists k :: 0 <= k < |run| && Overlap(run[k])
  }

  ghost predicate Exact(initial: int, c: Counter) {
    && c.total == initial - Stored(c.goroutines)
    && forall i :: 0 <= i < |c.goroutines| && c.goroutines[i].Loaded? ==> c.goroutines[i].value == c.total
  }

  lemma ExactStep(initial: int, c: Counter, c': Counter, i: nat)
    requires Exact(initial, c) && !Overlap(c) && CounterStep(c, c', i)
    ensures Exact(initial, c')
  {
    StoredAfterUpdate(c.goroutines, i, c'.goroutines[i]);
  }

  lemma {:induction false} ExactSoFar(run: seq<Counter>, schedule: seq<nat>, initial: int, m: nat)
    requires CounterRun(run, schedule) && m < |run| && run[0] == Start(initial, |run[0].goroutines|)
    requires forall k :: 0 <= k < m ==> !Overlap(run[k])
    ensures Exact(initial, run[m])
  {
    if m == 0 {
      NoneStored(run[0].goroutines);
    } else {
      ExactSoFar(run, schedule, initial, m - 1);
      assert CounterStep(run[m - 1], run[m - 1 + 1], schedule[m - 1]);
      ExactStep(initial, run[m - 1], run[m], schedule[m - 1]);
    }
  }

  /** The value of `g`, if it is between load and store, misses at least one store. */
  predicate Outdated(initial: int, c: Counter, g: Goroutine) {
    g.Loaded? && g.value > initial - Stored(c.goroutines)
  }

  /** A decrement is lost already, or will be by a store that is still to come. */
  ghost predicate Spoiled(initial: int, c: Counter) {
    || Overlap(c)
    || (exists i :: 0 <= i < |c.goroutines| && Outdated(initial, c, c.goroutines[i]))
    || (c.total > initial - Stored(c.goroutines)
        && forall i :: 0 <= i < |c.goroutines| && c.goroutines[i].Loaded? ==> Outdated(initial, c, c.goroutines[i]))
  }

  /** The goroutine that waits longer than the i-th misses the store of the i-th. */
  lemma StoreSpoils(initial: int, c: Counter, c': Counter, i: nat)
    requires CounterInv(initial, c) && Spoiled(initial, c) && CounterStep(c, c', i) && c.goroutines[i].Loaded?
    ensures Spoiled(initial, c')
  {
    StoredAfterUpdate(c.goroutines, i, c'.goroutines[i]);
    if Overlap(c) {
      var a, b :| 0 <= a < b < |c.goroutines| && c.goroutines[a].Loaded? && c.goroutines[b].Loaded?;
      var other := if a == i then b else a;
      assert Outdated(initial, c', c'.goroutines[other]);
    }
  }

  lemma SpoiledStep(initial: int, c: Counter, c': Counter, i: nat)
    requires CounterInv(initial, c) && Spoiled(initial, c) && CounterStep(c, c', i)
    ensures Spoiled(initial, c')
  {
    if c.goroutines[i].Loaded? {
      StoreSpoils(initial, c, c', i);
    } else {
      StoredAfterUpdate(c.goroutines, i, c'.goroutines[i]);
      if Overlap(c) {
        var a, b :| 0 <= a < b < |c.goroutines| && c.goroutines[a].Loaded? && c.goroutines[b].Loaded?;
        assert c'.goroutines[a] == c.goroutines[a] && c'.goroutines[b] == c.goroutines[b];
      } else if k :| 0 <= k < |c.goroutines| && Outdated(initial, c, c.goroutines[k]) {
        assert Outdated(initial, c', c'.goroutines[k]);
      }
    }
  }

  lemma {:induction false} SpoiledStays(run: seq<Counter>, schedule: seq<nat>, initial: int, k: nat, m: nat)
    requires CounterRun(run, schedule) && k <= m < |run| && run[0] == Start(initial, |run[0].goroutines|)
    requires Overlap(run[k])
    ensures Spoiled(initial, run[m])
  {
    if k < m {
      SpoiledStays(run, schedule, initial, k, m - 1);
      var front, steps := run[..m], schedule[..m - 1];
      assert CounterRun(front, steps);
      CounterNeverUndershoots(front, steps);
      assert CounterStep(run[m - 1], run[m - 1 + 1], schedule[m - 1]);
      SpoiledStep(initial, run[m - 1], run[m], schedule[m - 1]);
    }
  }

  lemma {:induction false} StoredAtEnd(gs: seq<Goroutine>, completes: seq<bool>)
    requires Ends(gs, completes)
    ensures Stored(gs) == Completions(completes)
  {
    if gs != [] {
      StoredAtEnd(gs[1..], completes[1..]);
    }
  }

  /**
   A complete schedule ends with the exact counter if and only if no two goroutines are ever between their load
   and their store at the same time; otherwise the counter ends too high.
   */
  lemma ExactIffNoOverlap(run: seq<Counter>, schedule: seq<nat>, initial: int, completes: seq<bool>)
    requires CompleteRun(run, schedule, initial, completes)
    ensures Last(run).total >= initial - Completions(completes)
    ensures Last(run).total == initial - Completions(completes) <==> !Races(run)
  {
    StoredAtEnd(Last(run).goroutines, completes);
    CounterNeverUndershoots(run, schedule);
    if !Races(run) {
      ExactSoFar(run, schedule, initial, |run| - 1);
    } else {
      var k :| 0 <= k < |run| && Overlap(run[k]);
      SpoiledStays(run, schedule, initial, k, |run| - 1);
    }
  }

  lemma {:induction false} AllCompletions(completes: seq<bool>)
    ensures Completions(completes) <= |completes|
    ensures Completions(completes) == |completes| <==> forall i :: 0 <= i < |completes| ==> completes[i]
  {
    if completes != [] {
      AllCompletions(completes[1..]);
      assert forall i :: 0 < i < |completes| ==> completes[i] == completes[1..][i - 1];
    }
  }

  /** A goroutine past its restart completes. */
  predicate Completing(g: Goroutine) {
    g == Restarted || g.Loaded? || g == Exited(true)
  }

  lemma {:induction false} CompletingStays(run: seq<Counter>, schedule: seq<nat>, i: nat, k: nat, m: nat)
    requires CounterRun(run, schedule) && k <= m < |run|
    requires i < |run[k].goroutines| && Completing(run[k].goroutines[i])
    ensures |run[m].goroutines| == |run[k].goroutines| && Completing(run[m].goroutines[i])
  {
    if k < m {
      CompletingStays(run, schedule, i, k, m - 1);
      assert CounterStep(run[m - 1], run[m - 1 + 1], schedule[m - 1]);
    }
  }

  lemma {:induction false} TwoComplete(completes: seq<bool>, i: nat, j: nat)
    requires i < j < |completes| && completes[i] && completes[j]
    ensures Completions(completes) >= 2
  {
    if i > 0 {
      TwoComplete(completes[1..], i - 1, j - 1);
    } else {
      OneCompletes(completes[1..], j - 1);
    }
  }

  lemma {:induction false} OneCompletes(completes: seq<bool>, i: nat)
    requires i < |completes| && completes[i]
    ensures Completions(completes) >= 1
  {
    if i > 0 {
      OneCompletes(completes[1..], i - 1);
    }
  }

  lemma {:induction false} FindOne(completes: seq<bool>) returns (i: nat)
    requires Completions(completes) >= 1
    ensures i < |completes| && completes[i]
    ensures Completions(completes) >= 2 ==> Completions(completes[i + 1..]) >= 1
  {
    if completes[0] {
      i := 0;
    } else {
      i := FindOne(completes[1..]);
      assert completes[1..][i + 1..] == completes[i + 2..];
      i := i + 1;
    }
  }

  /** With at most one completing goroutine there is nothing to overlap with. */
  lemma FewNeverOverlap(run: seq<Counter>, schedule: seq<nat>, initial: int, completes: seq<bool>, k: nat)
    requires CompleteRun(run, schedule, initial, completes) && k < |run| && Completions(completes) <= 1
    ensures !Overlap(run[k])
  {
    if Overlap(run[k]) {
      var i, j :| 0 <= i < j < |run[k].goroutines| && run[k].goroutines[i].Loaded? && run[k].goroutines[j].Loaded?;
      CompletingStays(run, schedule, i, k, |run| - 1);
      CompletingStays(run, schedule, j, k, |run| - 1);
      TwoComplete(completes, i, j);
    }
  }

  lemma FewNeverRace(run: seq<Counter>, schedule: seq<nat>, initial: int, completes: seq<bool>)
    requires CompleteRun(run, schedule, initial, completes) && Completions(completes) <= 1
    ensures !Races(run)
  {
    forall k | 0 <= k < |run| ensures !Overlap(run[k]) {
      FewNeverOverlap(run, schedule, initial, completes, k);
    }
  }

  /** The goroutines can still end as `completes` says. */
  ghost predicate CanEnd(gs: seq<Goroutine>, completes: seq<bool>) {
    && |gs| == |completes|
    && forall i :: 0 <= i < |gs| ==>
         match gs[i]
         case NotStarted => true
         case Restarted => completes[i]
         case Loaded(_) => completes[i]
         case Exited(stored) => stored == completes[i]
  }

  lemma Extend(run: seq<Counter>, schedule: seq<nat>, c: Counter, i: nat, tickets: nat)
    requires CounterRun(run, schedule) && Admitted(run, schedule, tickets)
    requires CounterStep(Last(run), c, i) && TicketLeft(Last(run), i, tickets)
    ensures CounterRun(run + [c], schedule + [i]) && Admitted(run + [c], schedule + [i], tickets)
    ensures run <= run + [c] && Last(run + [c]) == c
  {
    var run', schedule' := run + [c], schedule + [i];
    forall k | 0 <= k < |schedule'|
      ensures CounterStep(run'[k], run'[k + 1], schedule'[k]) && TicketLeft(run'[k], schedule'[k], tickets)
    {
      if k < |schedule| {
        assert CounterStep(run[k], run[k + 1], schedule[k]) && TicketLeft(run[k], schedule[k], tickets);
      }
    }
  }

  /** `run` is an admitted schedule so far, which has come to `c`. */
  ghost predicate Recorded(run: seq<Counter>, schedule: seq<nat>, initial: int, c: Counter, tickets: nat) {
    CounterRun(run, schedule) && Admitted(run, schedule, tickets) && run[0] == Start(initial, |c.goroutines|) && Last(run) == c
  }

  lemma RecordedStep(run: seq<Counter>, schedule: seq<nat>, initial: int, c: Counter, c': Counter, i: nat, tickets: nat)
    requires Recorded(run, schedule, initial, c, tickets) && CounterStep(c, c', i) && TicketLeft(c, i, tickets)
    ensures Recorded(run + [c'], schedule + [i], initial, c', tickets)
  {
    Extend(run, schedule, c', i, tickets);
  }

  /** All goroutines before the k-th have exited, except possibly `held`. */
  ghost predicate DoneBut(gs: seq<Goroutine>, k: nat, held: int) {
    k <= |gs| && forall i :: 0 <= i < k && i != held ==> gs[i].Exited?
  }

  lemma {:induction false} FewUnfinished(gs: seq<Goroutine>, k: nat, held: int)
    requires DoneBut(gs, k, held)
    ensures Unfinished(gs, k) <= if held < k then 1 else 0
    ensures held < 0 ==> Unfinished(gs, k) == 0
  {
    if k > 0 {
      FewUnfinished(gs, k - 1, held);
    }
  }

  /** The first unfinished goroutine always has a ticket. */
  lemma SomeAdmitted(gs: seq<Goroutine>, tickets: nat)
    requires tickets > 0 && exists i :: 0 <= i < |gs| && !gs[i].Exited?
    ensures exists i :: 0 <= i < |gs| && !gs[i].Exited? && Unfinished(gs, i) < tickets
  {
    var i := 0;
    while gs[i].Exited?
      invariant i < |gs| && DoneBut(gs, i, -1)
      decreases |gs| - i
    {
      i := i + 1;
    }
    FewUnfinished(gs, i, -1);
  }

  lemma {:induction false} UnfinishedBound(gs: seq<Goroutine>, k: nat)
    requires k <= |gs|
    ensures Unfinished(gs, k) <= k
    ensures Unfinished(gs, k) == k <==> forall i :: 0 <= i < k ==> !gs[i].Exited?
  {
    if k > 0 {
      UnfinishedBound(gs, k - 1);
    }
  }

  /** Up to a hundred workers never wait for each other; the later ones start only after an earlier one has exited. */
  lemma HundredTickets(run: seq<Counter>, schedule: seq<nat>)
    requires CounterRun(run, schedule) && forall k :: 0 <= k < |run| ==> |run[k].goroutines| == |run[0].goroutines|
    ensures |run[0].goroutines| <= 100 ==> Admitted(run, schedule, Tickets(|run[0].goroutines|))
    ensures Admitted(run, schedule, Tickets(|run[0].goroutines|)) ==>
              forall k :: 0 <= k < |schedule| && schedule[k] >= 100 ==>
                exists i :: 0 <= i < schedule[k] && run[k].goroutines[i].Exited?
    ensures |run[0].goroutines| > 100 && Admitted(run, schedule, 100) ==> Admitted(run, schedule, Tickets(|run[0].goroutines|))
  {
    forall k | 0 <= k < |schedule|
      ensures |run[0].goroutines| <= 100 ==> TicketLeft(run[k], schedule[k], Tickets(|run[0].goroutines|))
      ensures TicketLeft(run[k], schedule[k], Tickets(|run[0].goroutines|)) && schedule[k] >= 100 ==>
                exists i :: 0 <= i < schedule[k] && run[k].goroutines[i].Exited?
    {
      assert CounterStep(run[k], run[k + 1], schedule[k]);
      UnfinishedBound(run[k].goroutines, schedule[k]);
    }
  }

  /** The next step of a goroutine on its way to the end that `completes` says. */
  function Next(c: Counter, i: nat, completes: bool): Counter
    requires i < |c.goroutines| && !c.goroutines[i].Exited?
  {
    match c.goroutines[i]
    case NotStarted => c.(goroutines := c.goroutines[i := if completes then Restarted else Exited(false)])
    case Restarted => c.(goroutines := c.goroutines[i := Loaded(c.total)])
    case Loaded(value) => Counter(value - 1, c.goroutines[i := Exited(true)])
  }

  /** From any point of a schedule the goroutines below `hi` can be run to their end one after the other, `held` waiting. */
  lemma {:induction false} Drain(run: seq<Counter>, schedule: seq<nat>, completes: seq<bool>, lo: nat, hi: nat, held: int,
                                 tickets: nat)
    returns (run': seq<Counter>, schedule': seq<nat>)
    requires CounterRun(run, schedule) && Admitted(run, schedule, tickets) && tickets >= 2
    requires CanEnd(Last(run).goroutines, completes) && lo <= hi <= |completes| && DoneBut(Last(run).goroutines, lo, held)
    ensures CounterRun(run', schedule') && Admitted(run', schedule', tickets) && run <= run'
    ensures CanEnd(Last(run').goroutines, completes) && DoneBut(Last(run').goroutines, hi, held)
    ensures forall k :: 0 <= k < |completes| && (k >= hi || k == held) ==>
              Last(run').goroutines[k] == Last(run).goroutines[k]
    decreases hi - lo, Remaining(Last(run).goroutines)
  {
    var c := Last(run);
    if lo == hi {
      run', schedule' := run, schedule;
    } else if lo == held || c.goroutines[lo].Exited? {
      run', schedule' := Drain(run, schedule, completes, lo + 1, hi, held, tickets);
    } else {
      var c' := Next(c, lo, completes[lo]);
      FewUnfinished(c.goroutines, lo, held);
      Extend(run, schedule, c', lo, tickets);
      RemainingFalls(c.goroutines, lo, c'.goroutines[lo]);
      run', schedule' := Drain(run + [c'], schedule + [lo], completes, lo, hi, held, tickets);
    }
  }

  /** Goroutine `i` alone is started and loads the counter. */
  lemma StartAndLoad(run: seq<Counter>, schedule: seq<nat>, completes: seq<bool>, i: nat, held: int, tickets: nat)
    returns (run': seq<Counter>, schedule': seq<nat>)
    requires CounterRun(run, schedule) && Admitted(run, schedule, tickets) && tickets >= 2
    requires CanEnd(Last(run).goroutines, completes) && DoneBut(Last(run).goroutines, i, held)
    requires i < |completes| && completes[i] && Last(run).goroutines[i] == NotStarted && held != i
    ensures CounterRun(run', schedule') && Admitted(run', schedule', tickets) && run <= run'
    ensures CanEnd(Last(run').goroutines, completes) && Last(run').goroutines[i].Loaded?
    ensures forall k :: 0 <= k < |completes| && k != i ==> Last(run').goroutines[k] == Last(run).goroutines[k]
  {
    var c0 := Last(run);
    var c1 := Next(c0, i, true);
    var c2 := Next(c1, i, true);
    FewUnfinished(c0.goroutines, i, held);
    FewUnfinished(c1.goroutines, i, held);
    Extend(run, schedule, c1, i, tickets);
    Extend(run + [c1], schedule + [i], c2, i, tickets);
    run', schedule' := run + [c1] + [c2], schedule + [i] + [i];
  }

  /** The first of two completing goroutines waits between its load and its store until the second has loaded. */
  lemma OverlappingSchedule(initial: int, completes: seq<bool>, i: nat, j: nat, tickets: nat)
    returns (run: seq<Counter>, schedule: seq<nat>)
    requires i < j < |completes| && completes[i] && completes[j] && tickets >= 2
    ensures CounterRun(run, schedule) && Admitted(run, schedule, tickets) && run[0] == Start(initial, |completes|)
    ensures CanEnd(Last(run).goroutines, completes) && Overlap(Last(run))
  {
    run, schedule := [Start(initial, |completes|)], [];
    run, schedule := Drain(run, schedule, completes, 0, i, -1, tickets);
    run, schedule := StartAndLoad(run, schedule, completes, i, -1, tickets);
    run, schedule := Drain(run, schedule, completes, 0, j, i, tickets);
    run, schedule := StartAndLoad(run, schedule, completes, j, i, tickets);
    assert Last(run).goroutines[i].Loaded? && Last(run).goroutines[j].Loaded?;
  }

  /** For any two completing goroutines among any number the semaphore admits a complete schedule that loses a decrement. */
  lemma LosingSchedule(initial: int, completes: seq<bool>, i: nat, j: nat) returns (run: seq<Counter>, schedule: seq<nat>)
    requires i < j < |completes| && completes[i] && completes[j]
    ensures CompleteRun(run, schedule, initial, completes) && Admitted(run, schedule, Tickets(|completes|))
    ensures Last(run).total > initial - Completions(completes)
  {
    var tickets := Tickets(|completes|);
    var front, steps := OverlappingSchedule(initial, completes, i, j, tickets);
    run, schedule := Drain(front, steps, completes, 0, |completes|, -1, tickets);
    assert run[|front| - 1] == Last(front);
    ExactIffNoOverlap(run, schedule, initial, completes);
  }

  /** Every complete schedule that the semaphore admits is exact if and only if at most one goroutine completes. */
  lemma AlwaysExactIffAtMostOne(initial: int, completes: seq<bool>)
    ensures (forall run, schedule ::
               CompleteRun(run, schedule, initial, completes) && Admitted(run, schedule, Tickets(|completes|)) ==>
                 Last(run).total == initial - Completions(completes))
            <==> Completions(completes) <= 1
  {
    if Completions(completes) <= 1 {
      forall run, schedule | CompleteRun(run, schedule, initial, completes)
        ensures Last(run).total == initial - Completions(completes)
      {
        FewNeverRace(run, schedule, initial, completes);
        ExactIffNoOverlap(run, schedule, initial, completes);
      }
    } else {
      var i := FindOne(completes);
      var j := FindOne(completes[i + 1..]);
      var run, schedule := LosingSchedule(initial, completes, i, i + 1 + j);
    }
  }
}
