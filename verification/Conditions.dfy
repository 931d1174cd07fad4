/**
 Job conditions (pkg/util/status.go).

 The status object is a class whose condition list the code rewrites; the list after one call is given
 by `Update`, and the lemmas speak about every sequence of calls that starts from the empty list.
 */
module Conditions {
  import opened Common

  datatype ConditionType =
    | JobCreated | JobQueuing | JobRunning | JobRestarting | JobSucceeded | JobFailed

  datatype ConditionStatus = ConditionTrue | ConditionFalse | ConditionUnknown

  datatype Condition = Condition(
    typ: ConditionType,
    status: ConditionStatus,
    reason: string,
    message: string,
    lastUpdate: int,
    lastTransition: int)

  /** One call of UpdateJobConditions, with the clock reading it takes. */
  datatype Report = Report(typ: ConditionType, reason: string, message: string, now: int)

  predicate Terminal(t: ConditionType) {
    t == JobSucceeded || t == JobFailed
  }

  /** Running and Restarting replace each other. */
  predicate Excludes(t: ConditionType, u: ConditionType) {
    (t == JobRestarting && u == JobRunning) || (t == JobRunning && u == JobRestarting)
  }

  predicate Holds(cs: seq<Condition>, t: ConditionType) {
    exists i :: 0 <= i < |cs| && cs[i].typ == t && cs[i].status == ConditionTrue
  }

  predicate Finished(cs: seq<Condition>) {
    Holds(cs, JobFailed) || Holds(cs, JobSucceeded)
  }

  /** The first condition of type `t`. */
  function Find(cs: seq<Condition>, t: ConditionType): (r: Option<Condition>)
    ensures r.Some? ==> r.value in cs && r.value.typ == t
    ensures r.None? <==> forall i :: 0 <= i < |cs| ==> cs[i].typ != t
  {
    if cs == [] then None
    else if cs[0].typ == t then Some(cs[0])
    else Find(cs[1..], t)
  }

  function FilterOut(cs: seq<Condition>, t: ConditionType): seq<Condition> {
    if cs == [] then []
    else
      var rest := FilterOut(cs[..|cs| - 1], t);
      var c := cs[|cs| - 1];
      if Excludes(t, c.typ) || c.typ == t then rest
      else if Terminal(t) && c.typ == JobRunning then rest + [c.(status := ConditionFalse)]
      else rest + [c]
  }

  function NewCondition(r: Report): Condition {
    Condition(r.typ, ConditionTrue, r.reason, r.message, r.now, r.now)
  }

  function Set(cs: seq<Condition>, c: Condition): seq<Condition> {
    if Finished(cs) then cs
    else
      var current := Find(cs, c.typ);
      if current.Some? && current.value.status == c.status && current.value.reason == c.reason then cs
      else
        var stamped :=
          if current.Some? && current.value.status == c.status
          then c.(lastTransition := current.value.lastTransition) else c;
        FilterOut(cs, c.typ) + [stamped]
  }

  function Update(cs: seq<Condition>, r: Report): seq<Condition> {
    Set(cs, NewCondition(r))
  }

  /** The list after a whole sequence of calls on a fresh status. */
  function Run(reports: seq<Report>): seq<Condition> {
    if reports == [] then []
    else Update(Run(reports[..|reports| - 1]), reports[|reports| - 1])
  }

  /** The code: status object, queries and setter. */

  class JobStatus {
    var conditions: seq<Condition>
    var startTime: Option<int>
    var completionTime: Option<int>

    constructor ()
      ensures conditions == [] && startTime == None && completionTime == None
    {
      conditions, startTime, completionTime := [], None, None;
    }

    method HasCondition(t: ConditionType) returns (r: bool)
      ensures r == Holds(conditions, t)
    {
      for i := 0 to |conditions|
        invariant forall k :: 0 <= k < i ==> !(conditions[k].typ == t && conditions[k].status == ConditionTrue)
      {
        if conditions[i].typ == t && conditions[i].status == ConditionTrue {
          return true;
        }
      }
      return false;
    }

    method GetCondition(t: ConditionType) returns (r: Option<Condition>)
      ensures r == Find(conditions, t)
    {
      for i := 0 to |conditions|
        invariant Find(conditions, t) == Find(conditions[i..], t)
      {
        if conditions[i].typ == t {
          return Some(conditions[i]);
        }
      }
      return None;
    }

    method GetLastCondition(t: ConditionType) returns (r: Option<Condition>)
      ensures r.Some? <==> conditions != [] && conditions[|conditions| - 1].typ == t
      ensures r.Some? ==> r.value == conditions[|conditions| - 1]
    {
      if |conditions| == 0 {
        return None;
      }
      var condition := conditions[|conditions| - 1];
      if condition.typ == t {
        return Some(condition);
      }
      return None;
    }

    method SetCondition(condition: Condition)
      modifies this`conditions
      ensures conditions == Set(old(conditions), condition)
    {
      var failed := HasCondition(JobFailed);
      var succeeded := HasCondition(JobSucceeded);
      if failed || succeeded {
        return;
      }
      var current := GetCondition(condition.typ);
      if current.Some? && current.value.status == condition.status && current.value.reason == condition.reason {
        return;
      }
      var stamped := condition;
      if current.Some? && current.value.status == condition.status {
        stamped := stamped.(lastTransition := current.value.lastTransition);
      }
      var newConditions := FilterOutCondition(conditions, condition.typ);
      conditions := newConditions + [stamped];
    }

    method UpdateJobConditions(r: Report)
      modifies this`conditions
      ensures conditions == Update(old(conditions), r)
    {
      SetCondition(NewCondition(r));
    }
  }

  method FilterOutCondition(conditions: seq<Condition>, t: ConditionType) returns (newConditions: seq<Condition>)
    ensures newConditions == FilterOut(conditions, t)
  {
    newConditions := [];
    for i := 0 to |conditions|
      invariant newConditions == FilterOut(conditions[..i], t)
    {
      assert conditions[..i + 1][..i] == conditions[..i];
      var c := conditions[i];
      if t == JobRestarting && c.typ == JobRunning {
        continue;
      }
      if t == JobRunning && c.typ == JobRestarting {
        continue;
      }
      if c.typ == t {
        continue;
      }
      if (t == JobFailed || t == JobSucceeded) && c.typ == JobRunning {
        c := c.(status := ConditionFalse);
      }
      newConditions := newConditions + [c];
    }
    assert conditions[..|conditions|] == conditions;
  }

  /** IsWorkloadFinished (controllers/apps/cron_utils.go): the type of the last condition, and whether the job is over. */
  method IsWorkloadFinished(status: JobStatus) returns (t: Option<ConditionType>, finished: bool)
    ensures finished == Finished(status.conditions)
    ensures t == (if status.conditions == [] then None else Some(status.conditions[|status.conditions| - 1].typ))
  {
    var failed := status.HasCondition(JobFailed);
    var succeeded := status.HasCondition(JobSucceeded);
    finished := failed || succeeded;
    if |status.conditions| > 0 {
      return Some(status.conditions[|status.conditions| - 1].typ), finished;
    }
    return None, finished;
  }

  /** What every reachable list satisfies. */

  ghost predicate LastIsTerminal(cs: seq<Condition>) {
    cs != [] && Terminal(cs[|cs| - 1].typ)
  }

  ghost predicate Valid(cs: seq<Condition>) {
    && Apart(cs)
    && (forall i :: 0 <= i < |cs| - 1 ==> !Terminal(cs[i].typ))
    && (forall i :: 0 <= i < |cs| ==>
          cs[i].status == if cs[i].typ == JobRunning && LastIsTerminal(cs) then ConditionFalse else ConditionTrue)
  }

  /** On a valid list "finished" means exactly that the last condition is Succeeded or Failed. */
  lemma ValidFinished(cs: seq<Condition>)
    requires Valid(cs)
    ensures Finished(cs) <==> LastIsTerminal(cs)
    ensures LastIsTerminal(cs) ==> !Holds(cs, JobRunning)
    ensures !(Holds(cs, JobSucceeded) && Holds(cs, JobFailed))
  {
    if LastIsTerminal(cs) {
      var last := |cs| - 1;
      assert Holds(cs, cs[last].typ);
    }
  }

  ghost predicate Lists(cs: seq<Condition>, t: ConditionType) {
    exists i :: 0 <= i < |cs| && cs[i].typ == t
  }

  /** No type twice, and never Running beside Restarting. */
  ghost predicate Apart(cs: seq<Condition>) {
    forall i, j :: 0 <= i < j < |cs| ==> cs[i].typ != cs[j].typ && !Excludes(cs[i].typ, cs[j].typ)
  }

  lemma ListsAppend(cs: seq<Condition>, c: Condition, u: ConditionType)
    ensures Lists(cs + [c], u) <==> Lists(cs, u) || u == c.typ
  {
    var out := cs + [c];
    assert out[|cs|].typ == c.typ;
    assert forall i :: 0 <= i < |cs| ==> out[i] == cs[i];
  }

  /** Which types the filter leaves. */
  lemma {:induction false} FilteredLists(cs: seq<Condition>, t: ConditionType, u: ConditionType)
    ensures Lists(FilterOut(cs, t), u) <==> Lists(cs, u) && u != t && !Excludes(t, u)
  {
    if cs != [] {
      var front, last := cs[..|cs| - 1], cs[|cs| - 1];
      FilteredLists(front, t, u);
      assert cs == front + [last];
      ListsAppend(front, last, u);
      ListsAppend(FilterOut(front, t), last, u);
      ListsAppend(FilterOut(front, t), last.(status := ConditionFalse), u);
    }
  }

  lemma {:induction false} FilteredApart(cs: seq<Condition>, t: ConditionType)
    requires Apart(cs)
    ensures Apart(FilterOut(cs, t))
  {
    if cs != [] {
      var front := cs[..|cs| - 1];
      FilteredApart(front, t);
      var rest := FilterOut(front, t);
      forall i | 0 <= i < |rest| ensures rest[i].typ != cs[|cs| - 1].typ && !Excludes(rest[i].typ, cs[|cs| - 1].typ) {
        FilteredLists(front, t, rest[i].typ);
        var k :| 0 <= k < |front| && front[k].typ == rest[i].typ;
        assert cs[k] == front[k];
      }
    }
  }

  /** A verdict of type `t` demotes Running; everything else stays true. */
  ghost predicate DemotedBy(t: ConditionType, out: seq<Condition>) {
    forall i :: 0 <= i < |out| ==>
      out[i].status == if out[i].typ == JobRunning && Terminal(t) then ConditionFalse else ConditionTrue
  }

  lemma {:induction false} FilteredStatus(cs: seq<Condition>, t: ConditionType)
    requires forall i :: 0 <= i < |cs| ==> cs[i].status == ConditionTrue
    ensures DemotedBy(t, FilterOut(cs, t))
  {
    if cs != [] {
      FilteredStatus(cs[..|cs| - 1], t);
    }
  }

  lemma FilteredTypes(cs: seq<Condition>, t: ConditionType)
    ensures var out := FilterOut(cs, t);
      forall i :: 0 <= i < |out| ==> out[i].typ != t && !Excludes(t, out[i].typ) && Lists(cs, out[i].typ)
  {
    var out := FilterOut(cs, t);
    forall i | 0 <= i < |out| ensures out[i].typ != t && !Excludes(t, out[i].typ) && Lists(cs, out[i].typ) {
      FilteredLists(cs, t, out[i].typ);
    }
  }

  lemma AppendKeepsValid(cs: seq<Condition>, c: Condition)
    requires Valid(cs) && !Finished(cs) && c.status == ConditionTrue
    ensures Valid(FilterOut(cs, c.typ) + [c])
  {
    ValidFinished(cs);
    FilteredTypes(cs, c.typ);
    FilteredApart(cs, c.typ);
    FilteredStatus(cs, c.typ);
    var left := FilterOut(cs, c.typ);
    forall i | 0 <= i < |left| ensures !Terminal(left[i].typ) {
      FilteredLists(cs, c.typ, left[i].typ);
      assert Lists(left, left[i].typ);
    }
  }

  lemma UpdateKeepsValid(cs: seq<Condition>, r: Report)
    requires Valid(cs)
    ensures Valid(Update(cs, r))
  {
    if !Finished(cs) {
      var c := UpdateShape(cs, r);
      AppendKeepsValid(cs, c);
    }
  }

  /** An effective call appends one true condition of the reported type to the filtered list. */
  lemma UpdateShape(cs: seq<Condition>, r: Report) returns (c: Condition)
    requires !Finished(cs)
    ensures c.typ == r.typ && c.status == ConditionTrue && c.reason == r.reason
    ensures Find(cs, r.typ).Some? && Find(cs, r.typ).value.status == ConditionTrue ==>
              c.lastTransition == Find(cs, r.typ).value.lastTransition
    ensures
      || Update(cs, r) == FilterOut(cs, r.typ) + [c]
      || (Update(cs, r) == cs && Find(cs, r.typ).Some? && Find(cs, r.typ).value.reason == r.reason)
  {
    c := NewCondition(r);
    var current := Find(cs, r.typ);
    if current.Some? && current.value.status == c.status {
      c := c.(lastTransition := current.value.lastTransition);
    }
  }

  /** Every sequence of calls leaves a valid list. */
  lemma {:induction false} RunIsValid(reports: seq<Report>)
    ensures Valid(Run(reports))
  {
    if reports != [] {
      RunIsValid(reports[..|reports| - 1]);
      UpdateKeepsValid(Run(reports[..|reports| - 1]), reports[|reports| - 1]);
    }
  }

  /** A finished workload always reports Succeeded or Failed as its type, and such a type is reported only when finished. */
  lemma FinishedReportsItsVerdict(reports: seq<Report>)
    ensures var cs := Run(reports);
      Finished(cs) <==> cs != [] && Terminal(cs[|cs| - 1].typ)
  {
    RunIsValid(reports);
    ValidFinished(Run(reports));
  }

  lemma {:induction false} RunConcat(reports: seq<Report>, more: seq<Report>)
    requires Finished(Run(reports))
    ensures Run(reports + more) == Run(reports)
  {
    if more == [] {
      assert reports + more == reports;
    } else {
      var front := more[..|more| - 1];
      RunConcat(reports, front);
      assert (reports + more)[..|reports + more| - 1] == reports + front;
    }
  }

  /** Condition types that survive an update: all of them, but for the Running/Restarting swap. */
  lemma {:induction false} FilterOutKeeps(cs: seq<Condition>, t: ConditionType, i: nat)
    requires i < |cs| && cs[i].typ != t && !Excludes(t, cs[i].typ)
    ensures exists k :: 0 <= k < |FilterOut(cs, t)|
              && FilterOut(cs, t)[k] == (if Terminal(t) && cs[i].typ == JobRunning then cs[i].(status := ConditionFalse) else cs[i])
  {
    var front := cs[..|cs| - 1];
    var want := if Terminal(t) && cs[i].typ == JobRunning then cs[i].(status := ConditionFalse) else cs[i];
    if i < |cs| - 1 {
      FilterOutKeeps(front, t, i);
      var k :| 0 <= k < |FilterOut(front, t)| && FilterOut(front, t)[k] == want;
      assert FilterOut(cs, t)[k] == want;
    } else {
      assert FilterOut(cs, t)[|FilterOut(cs, t)| - 1] == want;
    }
  }

  lemma CreatedStays(cs: seq<Condition>, r: Report)
    requires Holds(cs, JobCreated)
    ensures Holds(Update(cs, r), JobCreated)
  {
    if Update(cs, r) != cs {
      var c := UpdateShape(cs, r);
      var left := FilterOut(cs, r.typ);
      if r.typ == JobCreated {
        assert (left + [c])[|left|] == c;
      } else {
        var i :| 0 <= i < |cs| && cs[i].typ == JobCreated && cs[i].status == ConditionTrue;
        FilterOutKeeps(cs, r.typ, i);
        var k :| 0 <= k < |left| && left[k] == cs[i];
        assert (left + [c])[k] == cs[i];
      }
    }
  }

  /** Once Created holds it holds after any further calls. */
  lemma {:induction false} CreatedIsNeverLost(reports: seq<Report>, more: seq<Report>)
    requires Holds(Run(reports), JobCreated)
    ensures Holds(Run(reports + more), JobCreated)
  {
    if more == [] {
      assert reports + more == reports;
    } else {
      var front := more[..|more| - 1];
      CreatedIsNeverLost(reports, front);
      assert (reports + more)[..|reports + more| - 1] == reports + front;
      CreatedStays(Run(reports + front), more[|more| - 1]);
    }
  }

  /** The verdict of a run: the type of the first terminal report. */
  function FirstTerminal(reports: seq<Report>): (r: Option<ConditionType>)
  {
    if reports == [] then None
    else
      var before := FirstTerminal(reports[..|reports| - 1]);
      if before.Some? then before
      else if Terminal(reports[|reports| - 1].typ) then Some(reports[|reports| - 1].typ)
      else None
  }

  /** Whether the latest Running/Restarting report up to the verdict says Running (or Restarting). */
  function LatestActivity(reports: seq<Report>): (r: Option<ConditionType>)
  {
    if reports == [] then None
    else
      var before := reports[..|reports| - 1];
      var t := reports[|reports| - 1].typ;
      if FirstTerminal(before).None? && (t == JobRunning || t == JobRestarting) then Some(t)
      else LatestActivity(before)
  }

  lemma ListsAfterUpdate(cs: seq<Condition>, r: Report, t: ConditionType)
    requires Valid(cs) && !Finished(cs)
    ensures Lists(Update(cs, r), t) <==> t == r.typ || (Lists(cs, t) && !Excludes(r.typ, t))
  {
    var c := UpdateShape(cs, r);
    FilteredLists(cs, r.typ, t);
    ListsAppend(FilterOut(cs, r.typ), c, t);
    if Find(cs, r.typ).Some? {
      var i :| 0 <= i < |cs| && cs[i] == Find(cs, r.typ).value;
      assert Lists(cs, r.typ);
      assert Excludes(r.typ, t) ==> forall j :: 0 <= j < |cs| ==> cs[j].typ != t;
    }
  }

  /**
   The meaning of a whole run, from its reports alone: the first terminal report decides the verdict for
   good, every reported type stays listed up to then, and exactly one of Running and Restarting is listed,
   the latest one reported.
   */
  lemma {:induction false} RunMeaning(reports: seq<Report>)
    ensures var cs := Run(reports);
      && (Holds(cs, JobSucceeded) <==> FirstTerminal(reports) == Some(JobSucceeded))
      && (Holds(cs, JobFailed) <==> FirstTerminal(reports) == Some(JobFailed))
      && (Lists(cs, JobRunning) <==> LatestActivity(reports) == Some(JobRunning))
      && (Lists(cs, JobRestarting) <==> LatestActivity(reports) == Some(JobRestarting))
      && (Holds(cs, JobRunning) <==> LatestActivity(reports) == Some(JobRunning) && FirstTerminal(reports).None?)
  {
    RunIsValid(reports);
    ValidFinished(Run(reports));
    if reports != [] {
      var before, r := reports[..|reports| - 1], reports[|reports| - 1];
      RunMeaning(before);
      RunIsValid(before);
      ValidFinished(Run(before));
      TerminalType(before);
      if !Finished(Run(before)) {
        forall t { ListsAfterUpdate(Run(before), r, t); }
        ListedAndHeld(Run(reports));
        ListedAndHeld(Run(before));
      }
    }
    ListedAndHeld(Run(reports));
  }

  lemma {:induction false} TerminalType(reports: seq<Report>)
    ensures FirstTerminal(reports).Some? ==> Terminal(FirstTerminal(reports).value)
  {
    if reports != [] {
      TerminalType(reports[..|reports| - 1]);
    }
  }

  lemma ListedAndHeld(cs: seq<Condition>)
    requires Valid(cs)
    ensures Holds(cs, JobSucceeded) <==> Lists(cs, JobSucceeded)
    ensures Holds(cs, JobFailed) <==> Lists(cs, JobFailed)
    ensures Holds(cs, JobRunning) <==> Lists(cs, JobRunning) && !LastIsTerminal(cs)
  {
  }

  /** Reporting a held type again, with another reason, keeps the time of its last transition. */
  lemma TransitionTimeIsKept(cs: seq<Condition>, r: Report)
    requires Valid(cs) && !Finished(cs) && Find(cs, r.typ).Some?
    ensures Find(Update(cs, r), r.typ).Some?
    ensures Find(Update(cs, r), r.typ).value.lastTransition == Find(cs, r.typ).value.lastTransition
    ensures Find(Update(cs, r), r.typ).value.reason == r.reason
  {
    ValidFinished(cs);
    var out := Update(cs, r);
    var c := UpdateShape(cs, r);
    if out != cs {
      FilteredTypes(cs, r.typ);
      FindLast(FilterOut(cs, r.typ), c);
    }
  }

  /**
   What one call leaves of an unfinished list, for the type it reports: nothing changes if the type is listed with this
   reason. Otherwise it comes last, true, with the new reason, message and time, and it is dated as a transition
   exactly if it was not listed before.
   */
  lemma ReportedComesLast(cs: seq<Condition>, r: Report)
    requires Valid(cs) && !Finished(cs)
    ensures (exists i :: 0 <= i < |cs| && cs[i].typ == r.typ && cs[i].reason == r.reason) ==> Update(cs, r) == cs
    ensures (forall i :: 0 <= i < |cs| && cs[i].typ == r.typ ==> cs[i].reason != r.reason) ==>
              var out := Update(cs, r);
              && out != [] && var last := out[|out| - 1];
              && last.typ == r.typ && last.status == ConditionTrue
              && last.reason == r.reason && last.message == r.message && last.lastUpdate == r.now
              && ((forall i :: 0 <= i < |cs| ==> cs[i].typ != r.typ) ==> last.lastTransition == r.now)
              && (forall i :: 0 <= i < |cs| && cs[i].typ == r.typ ==> last.lastTransition == cs[i].lastTransition)
  {
    ValidFinished(cs);
    var found := Find(cs, r.typ);
    forall i | 0 <= i < |cs| && cs[i].typ == r.typ ensures found == Some(cs[i]) {
      var k :| 0 <= k < |cs| && cs[k] == found.value;
      assert k == i;
    }
    if found.Some? {
      var i :| 0 <= i < |cs| && cs[i] == found.value;
      assert cs[i].typ == r.typ;
    }
  }

  lemma {:induction false} FindLast(cs: seq<Condition>, c: Condition)
    requires forall i :: 0 <= i < |cs| ==> cs[i].typ != c.typ
    ensures Find(cs + [c], c.typ) == Some(c)
  {
    if cs != [] {
      FindLast(cs[1..], c);
      assert (cs + [c])[1..] == cs[1..] + [c];
    }
  }

  /** Conditions without their messages and times. */

  datatype View = View(typ: ConditionType, status: ConditionStatus, reason: string)

  function ViewOf(c: Condition): View {
    View(c.typ, c.status, c.reason)
  }

  function Project(cs: seq<Condition>): (r: seq<View>)
    ensures |r| == |cs| && forall i :: 0 <= i < |cs| ==> r[i] == ViewOf(cs[i])
  {
    seq(|cs|, i requires 0 <= i < |cs| => ViewOf(cs[i]))
  }

  lemma ProjectAppend(cs: seq<Condition>, c: Condition)
    ensures Project(cs + [c]) == Project(cs) + [ViewOf(c)]
  {
  }

  lemma {:induction false} ProjectFilterOut(cs: seq<Condition>, cs': seq<Condition>, t: ConditionType)
    requires Project(cs) == Project(cs')
    ensures Project(FilterOut(cs, t)) == Project(FilterOut(cs', t))
  {
    assert |cs| == |Project(cs)| == |cs'|;
    if cs != [] {
      var front, front' := cs[..|cs| - 1], cs'[..|cs| - 1];
      var c, c' := cs[|cs| - 1], cs'[|cs| - 1];
      assert Project(front) == Project(cs)[..|cs| - 1] == Project(front');
      ProjectFilterOut(front, front', t);
      assert ViewOf(c) == Project(cs)[|cs| - 1] == ViewOf(c');
      ProjectAppend(FilterOut(front, t), c);
      ProjectAppend(FilterOut(front', t), c');
      ProjectAppend(FilterOut(front, t), c.(status := ConditionFalse));
      ProjectAppend(FilterOut(front', t), c'.(status := ConditionFalse));
    }
  }

  lemma {:induction false} ProjectFind(cs: seq<Condition>, cs': seq<Condition>, t: ConditionType)
    requires Project(cs) == Project(cs')
    ensures Find(cs, t).Some? <==> Find(cs', t).Some?
    ensures Find(cs, t).Some? ==> ViewOf(Find(cs, t).value) == ViewOf(Find(cs', t).value)
  {
    assert |cs| == |Project(cs)| == |cs'|;
    if cs != [] {
      assert Project(cs)[0] == Project(cs')[0];
      assert Project(cs[1..]) == Project(cs)[1..] == Project(cs'[1..]);
      ProjectFind(cs[1..], cs'[1..], t);
    }
  }

  /** Types, states and reasons never depend on messages or clock readings. */
  lemma ProjectUpdate(cs: seq<Condition>, cs': seq<Condition>, r: Report, r': Report)
    requires Project(cs) == Project(cs') && r.typ == r'.typ && r.reason == r'.reason
    ensures Project(Update(cs, r)) == Project(Update(cs', r'))
  {
    SameFinished(cs, cs');
    if !Finished(cs) {
      ProjectFind(cs, cs', r.typ);
      ProjectFilterOut(cs, cs', r.typ);
      var before, before' := Find(cs, r.typ), Find(cs', r.typ);
      if !(before.Some? && before.value.status == ConditionTrue && before.value.reason == r.reason) {
        var c, c' := Update(cs, r)[|FilterOut(cs, r.typ)|], Update(cs', r')[|FilterOut(cs', r.typ)|];
        ProjectAppend(FilterOut(cs, r.typ), c);
        ProjectAppend(FilterOut(cs', r.typ), c');
      }
    }
  }

  lemma SameFinished(cs: seq<Condition>, cs': seq<Condition>)
    requires Project(cs) == Project(cs')
    ensures Finished(cs) <==> Finished(cs')
  {
    assert |cs| == |Project(cs)| == |cs'|;
    forall i | 0 <= i < |cs| ensures ViewOf(cs[i]) == ViewOf(cs'[i]) {
      assert Project(cs)[i] == Project(cs')[i];
    }
  }
}
