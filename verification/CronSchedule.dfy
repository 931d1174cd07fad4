/**
 The closed form for "the most recent missed schedule" (controllers/apps/cron_utils.go).

 Times are nanoseconds. A schedule is given by its `next` function, which returns whole seconds. Durations are
 exact: the rounding of floating-point seconds is not part of this model.
 */
module CronSchedule {
  import opened Common

  const SECOND := 1_000_000_000

  ghost predicate WholeSeconds(next: int -> int) {
    forall t :: next(t) % SECOND == 0
  }

  /** Each scheduled time lies after the time asked for. */
  ghost predicate Advancing(next: int -> int) {
    WholeSeconds(next) && forall t :: next(t) > t
  }

  /** A schedule that can never fire: the library then always returns the same zero time. */
  ghost predicate NeverFires(next: int -> int) {
    WholeSeconds(next) && forall t, u :: next(t) == next(u)
  }

  /** Number of schedules and latest schedule in [t1, now] if all gaps are as long as `gap`. */
  function ClosedCount(t1: int, gap: int, now: int): int
    requires gap > 0
  {
    (now - t1) / gap + 1
  }

  function ClosedTime(t1: int, gap: int, now: int): int
    requires gap > 0
  {
    t1 + (now - t1) / gap * gap
  }

  /** The same two values by plain iteration over the schedule. */
  function LatestByIteration(next: int -> int, t1: int, now: int): (t: int)
    requires forall t :: next(t) > t
    requires t1 <= now
    ensures t1 <= t <= now < next(t)
    decreases now - t1
  {
    if next(t1) <= now then LatestByIteration(next, next(t1), now) else t1
  }

  function CountByIteration(next: int -> int, t1: int, now: int): (n: nat)
    requires forall t :: next(t) > t
    requires t1 <= now
    ensures n >= 1
    decreases now - t1
  {
    if next(t1) <= now then 1 + CountByIteration(next, next(t1), now) else 1
  }

  lemma MultiplyKeepsOrder(a: int, b: int, d: int)
    requires d > 0
    ensures a <= b ==> a * d <= b * d
  {
    if a <= b {
      assert 0 <= (b - a) * d;
    }
  }

  lemma QuotientUnique(x: int, d: int, q: int)
    requires d > 0 && q * d <= x < (q + 1) * d
    ensures x / d == q
  {
    assert x == x / d * d + x % d;
    MultiplyKeepsOrder(x / d + 1, q, d);
    MultiplyKeepsOrder(q + 1, x / d, d);
  }

  /** Dividing whole elapsed seconds by the gap in seconds is dividing the elapsed time by the gap. */
  lemma DivideInSeconds(elapsed: int, delta: int)
    requires elapsed >= 0 && delta >= 1
    ensures elapsed / SECOND / delta == elapsed / (delta * SECOND)
  {
    var s := elapsed / SECOND;
    var q := s / delta;
    assert q * delta <= s < (q + 1) * delta;
    assert s * SECOND <= elapsed < (s + 1) * SECOND;
    assert q * (delta * SECOND) == q * delta * SECOND;
    assert (q + 1) * (delta * SECOND) == (q + 1) * delta * SECOND;
    QuotientUnique(elapsed, delta * SECOND, q);
  }

  lemma GapInSeconds(t1: int, t2: int)
    requires t1 % SECOND == 0 && t2 % SECOND == 0
    ensures (t2 - t1 + SECOND / 2) / SECOND * SECOND == t2 - t1
    ensures t1 / SECOND * SECOND == t1
  {
    var a, b := t1 / SECOND, t2 / SECOND;
    assert t2 - t1 == (b - a) * SECOND;
    QuotientUnique((b - a) * SECOND + SECOND / 2, SECOND, b - a);
  }

  /** The count and the time as the code computes them, in whole seconds, are the closed form. */
  lemma SecondsAreClosedForm(t1: int, t2: int, now: int)
    requires t1 % SECOND == 0 && t2 % SECOND == 0 && t1 < t2 && t1 <= now
    ensures var delta := (t2 - t1 + SECOND / 2) / SECOND;
      && delta >= 1
      && (now - t1) / SECOND / delta + 1 == ClosedCount(t1, t2 - t1, now)
      && (t1 / SECOND + (now - t1) / SECOND / delta * delta) * SECOND == ClosedTime(t1, t2 - t1, now)
  {
    GapInSeconds(t1, t2);
    var delta := (t2 - t1 + SECOND / 2) / SECOND;
    MultiplyKeepsOrder(delta, 0, SECOND);
    DivideInSeconds(now - t1, delta);
    var q := (now - t1) / SECOND / delta;
    assert q * delta * SECOND == q * (delta * SECOND);
  }

  method GetMostRecentScheduleTime(earliest: int, now: int, next: int -> int)
    returns (t: Option<int>, missed: int, err: bool)
    requires Advancing(next) || NeverFires(next)
    ensures var t1 := next(earliest);
      && (now < t1 ==> t == None && missed == 0 && !err)
      && (t1 <= now && t1 < next(t1) ==>
            && !err
            && t == Some(ClosedTime(t1, next(t1) - t1, now))
            && missed == ClosedCount(t1, next(t1) - t1, now))
      && (t1 <= now && t1 >= next(t1) ==> err && t == None)
  {
    var t1 := next(earliest);
    var t2 := next(t1);
    if now < t1 {
      return None, 0, false;
    }
    if now < t2 {
      QuotientUnique(now - t1, t2 - t1, 0);
      return Some(t1), 1, false;
    }
    var scheduleDelta := (t2 - t1 + SECOND / 2) / SECOND;
    GapInSeconds(t1, t2);
    if scheduleDelta < 1 {
      return None, 0, true;
    }
    while t2 <= now
      decreases now - t2
    {
      t2 := next(t2);
    }
    SecondsAreClosedForm(t1, next(t1), now);
    var timeElapsed := (now - t1) / SECOND;
    missed := timeElapsed / scheduleDelta + 1;
    t := Some((t1 / SECOND + (missed - 1) * scheduleDelta) * SECOND);
    err := false;
  }

  /** For every schedule the result is within one first gap of now and never before the first missed schedule. */
  lemma ClosedFormBounds(next: int -> int, t1: int, now: int)
    requires Advancing(next) && t1 <= now
    ensures var gap := next(t1) - t1;
      && t1 <= ClosedTime(t1, gap, now) <= now < ClosedTime(t1, gap, now) + gap
      && ClosedTime(t1, gap, now) == t1 + (ClosedCount(t1, gap, now) - 1) * gap
      && (now >= next(t1) ==> ClosedTime(t1, gap, now) >= next(t1))
  {
    var gap := next(t1) - t1;
    var q := (now - t1) / gap;
    assert now - t1 == q * gap + (now - t1) % gap;
    MultiplyKeepsOrder(q, 0, gap);
    MultiplyKeepsOrder(0, q, gap);
    MultiplyKeepsOrder(1, q, gap);
  }

  /** All gaps from `t1` on are as long as the first one. */
  ghost predicate ConstantPeriod(next: int -> int, t1: int) {
    forall k: nat :: OnPeriod(next, t1, k)
  }

  ghost predicate OnPeriod(next: int -> int, t1: int, k: nat) {
    var gap := next(t1) - t1;
    next(t1 + k * gap) == t1 + (k + 1) * gap
  }

  ghost predicate FormsAgree(next: int -> int, t1: int, now: int)
    requires forall t :: next(t) > t
  {
    t1 <= now ==> LatestByIteration(next, t1, now) == ClosedTime(t1, next(t1) - t1, now)
  }

  lemma {:induction false} IterateFrom(next: int -> int, t1: int, k: nat, now: int)
    requires Advancing(next) && ConstantPeriod(next, t1) && t1 + k * (next(t1) - t1) <= now
    ensures var gap := next(t1) - t1;
      && LatestByIteration(next, t1 + k * gap, now) == ClosedTime(t1, gap, now)
      && k + CountByIteration(next, t1 + k * gap, now) == ClosedCount(t1, gap, now)
    decreases now - (t1 + k * (next(t1) - t1))
  {
    var gap := next(t1) - t1;
    assert OnPeriod(next, t1, k);
    assert t1 + (k + 1) * gap == t1 + k * gap + gap;
    if t1 + (k + 1) * gap <= now {
      IterateFrom(next, t1, k + 1, now);
    } else {
      QuotientUnique(now - t1, gap, k);
    }
  }

  /** With a constant period the closed form is the latest schedule and the exact number of missed ones. */
  lemma ConstantPeriodAgrees(next: int -> int, t1: int, now: int)
    requires Advancing(next) && ConstantPeriod(next, t1) && t1 <= now
    ensures LatestByIteration(next, t1, now) == ClosedTime(t1, next(t1) - t1, now)
    ensures CountByIteration(next, t1, now) == ClosedCount(t1, next(t1) - t1, now)
  {
    IterateFrom(next, t1, 0, now);
  }

  lemma OneGapLater(x: int, gap: int, k: int)
    requires gap > 0 && x / gap * gap == x && (x - 1) / gap * gap == k * gap
    ensures x == (k + 1) * gap
  {
    var q := x / gap;
    assert x - 1 == k * gap + (x - 1) % gap;
    assert (k + 1) * gap == k * gap + gap && (k + 2) * gap == k * gap + 2 * gap;
    MultiplyKeepsOrder(q, k, gap);
    MultiplyKeepsOrder(k + 2, q, gap);
  }

  /** Iterating from `t1` passes through `tk`. */
  ghost predicate PassesThrough(next: int -> int, t1: int, tk: int, now: int)
    requires forall t :: next(t) > t
  {
    t1 <= tk && (tk <= now ==> LatestByIteration(next, t1, now) == LatestByIteration(next, tk, now))
  }

  /** If the forms agree when the schedule after `tk` is due and one moment earlier, it lies on the grid. */
  lemma NextAtEdge(next: int -> int, t1: int, tk: int)
    requires Advancing(next)
    requires FormsAgree(next, t1, next(tk)) && PassesThrough(next, t1, tk, next(tk))
    requires FormsAgree(next, t1, next(tk) - 1) && PassesThrough(next, t1, tk, next(tk) - 1)
    ensures var gap, x := next(t1) - t1, next(tk) - t1;
      x / gap * gap == x && (x - 1) / gap * gap == tk - t1
  {
    assert LatestByIteration(next, tk, next(tk)) == next(tk);
    assert LatestByIteration(next, tk, next(tk) - 1) == tk;
  }

  /** If the forms agree at all times, the k-th schedule is followed by one a gap later. */
  lemma {:induction false} AgreementForcesPeriod(next: int -> int, t1: int, k: nat, tk: int)
    requires Advancing(next) && forall now :: FormsAgree(next, t1, now)
    requires tk == t1 + k * (next(t1) - t1)
    ensures OnPeriod(next, t1, k)
    ensures forall now :: PassesThrough(next, t1, tk, now)
    decreases k
  {
    var gap := next(t1) - t1;
    if k > 0 {
      var before := t1 + (k - 1) * gap;
      AgreementForcesPeriod(next, t1, k - 1, before);
      assert tk == before + gap == next(before);
      forall now ensures PassesThrough(next, t1, tk, now) {
        assert PassesThrough(next, t1, before, now);
      }
      NextAtEdge(next, t1, tk);
      OneGapLater(next(tk) - t1, gap, k);
    }
  }

  /** Exactly the constant-period schedules are computed right at all times. */
  lemma AgreesIffConstantPeriod(next: int -> int, t1: int)
    requires Advancing(next)
    ensures (forall now :: FormsAgree(next, t1, now)) <==> ConstantPeriod(next, t1)
  {
    if ConstantPeriod(next, t1) {
      forall now ensures FormsAgree(next, t1, now) {
        if t1 <= now {
          ConstantPeriodAgrees(next, t1, now);
        }
      }
    }
    if forall now :: FormsAgree(next, t1, now) {
      forall k: nat ensures OnPeriod(next, t1, k) {
        AgreementForcesPeriod(next, t1, k, t1 + k * (next(t1) - t1));
      }
    }
  }

  const MINUTE := 60 * SECOND
  const HOUR := 60 * MINUTE

  /** The schedule "0,1 * * * *": minutes 0 and 1 of every hour. */
  function TwoMinutesAnHour(t: int): int {
    var hour := t / HOUR * HOUR;
    if t - hour < MINUTE then hour + MINUTE else hour + HOUR
  }

  lemma TwoMinutesAdvances()
    ensures Advancing(TwoMinutesAnHour)
  {
    forall t ensures TwoMinutesAnHour(t) > t && TwoMinutesAnHour(t) % SECOND == 0 {
      var h := t / HOUR;
      assert t == h * HOUR + t % HOUR;
      assert h * HOUR + MINUTE == (3600 * h + 60) * SECOND && h * HOUR + HOUR == (3600 * h + 3600) * SECOND;
      Multiple(3600 * h + 60);
      Multiple(3600 * h + 3600);
    }
  }

  /** For it the computed time need not be a scheduled time at all: at ten past one it is ten past. */
  lemma ComputedTimeMayBeUnscheduled()
    ensures Advancing(TwoMinutesAnHour)
    ensures var earliest, now := 30 * MINUTE, HOUR + 10 * MINUTE;
      var t1 := TwoMinutesAnHour(earliest);
      var t := ClosedTime(t1, TwoMinutesAnHour(t1) - t1, now);
      && LatestByIteration(TwoMinutesAnHour, t1, now) == HOUR + MINUTE
      && t == now && TwoMinutesAnHour(t - 1) != t
  {
    TwoMinutesAdvances();
    QuotientUnique(30 * MINUTE, HOUR, 0);
    QuotientUnique(HOUR, HOUR, 1);
    QuotientUnique(HOUR + MINUTE, HOUR, 1);
    QuotientUnique(HOUR + 10 * MINUTE - 1, HOUR, 1);
    QuotientUnique(10 * MINUTE, MINUTE, 10);
    assert TwoMinutesAnHour(30 * MINUTE) == HOUR && TwoMinutesAnHour(HOUR) == HOUR + MINUTE;
    assert TwoMinutesAnHour(HOUR + MINUTE) == 2 * HOUR;
    assert LatestByIteration(TwoMinutesAnHour, HOUR + MINUTE, HOUR + 10 * MINUTE) == HOUR + MINUTE;
  }

  lemma Multiple(k: int)
    ensures k * SECOND % SECOND == 0
  {
    QuotientUnique(k * SECOND, SECOND, k);
  }

  /** The time to schedule now, if any; `last` is the last scheduled time and `created` the creation of the cron. */
  function NextScheduleTime(last: Option<int>, created: int, now: int, next: int -> int): Option<int> {
    var earliest := if last.Some? then last.value else created;
    var t1 := next(earliest);
    if earliest > now || now < t1 || t1 >= next(t1) then None
    else Some(ClosedTime(t1, next(t1) - t1, now))
  }

  /** Any schedule, however it was edited since, gives a later time than the last one, and never a future one. */
  lemma NextIsLater(last: Option<int>, created: int, now: int, next: int -> int)
    requires Advancing(next) || NeverFires(next)
    ensures var earliest, t := if last.Some? then last.value else created, NextScheduleTime(last, created, now, next);
      && (t.Some? <==> Advancing(next) && next(earliest) <= now)
      && (t.Some? ==> earliest < next(earliest) <= t.value <= now)
  {
    var earliest := if last.Some? then last.value else created;
    var t1 := next(earliest);
    assert NeverFires(next) ==> next(t1) == t1;
    if Advancing(next) && t1 <= now {
      ClosedFormBounds(next, t1, now);
    }
  }

  /** It is a whole second, also where it is no time of the schedule. */
  lemma NextIsWholeSecond(last: Option<int>, created: int, now: int, next: int -> int)
    requires Advancing(next) && NextScheduleTime(last, created, now, next).Some?
    ensures NextScheduleTime(last, created, now, next).value % SECOND == 0
  {
    var t1 := next(if last.Some? then last.value else created);
    SecondsAreClosedForm(t1, next(t1), now);
    var delta := (next(t1) - t1 + SECOND / 2) / SECOND;
    Multiple(t1 / SECOND + (now - t1) / SECOND / delta * delta);
  }

  method GetNextScheduleTime(lastScheduleTime: Option<int>, created: int, now: int, next: int -> int)
    returns (t: Option<int>, err: bool)
    requires Advancing(next) || NeverFires(next)
    ensures t == NextScheduleTime(lastScheduleTime, created, now, next)
    ensures Advancing(next) ==> !err
  {
    var earliest: int;
    if lastScheduleTime != None {
      earliest := lastScheduleTime.value;
    } else {
      earliest := created;
    }
    if earliest > now {
      return None, false;
    }
    var missed;
    t, missed, err := GetMostRecentScheduleTime(earliest, now, next);
  }
}
