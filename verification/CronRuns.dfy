/**
 Whole runs of a cron (controllers/apps/cron_controller.go, syncCron and scheduleNextIfPossible).

 The state is what the API server holds. A pass reads it, may fail or crash after any of its writes, and is
 run again later; between passes workloads are deleted or created by others, the clock jumps, and users
 edit schedule and policy. A pass that works on an outdated copy fails at its first status update, so
 every later step of a pass acts on the saved state.
 */
module CronRuns {
  import opened Common
  import opened CronSchedule
  import Names
  import CA = CronActive

  datatype Policy = Allow | Forbid | Replace

  datatype Event = Created(time: int) | Saved(time: int) | Deleted(name: string)

  /** `used` holds every UID ever given out; 0 stands for the empty UID. */
  datatype State = State(
    last: Option<int>,
    active: seq<CA.Ref>,
    workloads: map<string, int>,
    used: set<int>,
    events: seq<Event>)

  datatype Identity = Identity(name: string, created: int)

  /** Where a pass ends early: before its first save, after it (suspended, past its deadline, unusable schedule), or on an error. */
  datatype Fault = NoFault | Early | Stopped | ReplaceFails | CreateFails | SaveFails

  datatype Move =
    | Pass(now: int, next: int -> int, policy: Policy, dropped: set<int>, uid: int, fault: Fault)
    | Delete(name: string)
    | Appear(name: string, uid: int)

  function NameFor(c: Identity, time: int): string {
    Names.GetDefaultJobName(c.name, time / SECOND)
  }

  /** Creating the workload of `time`, and then saving the status with its reference. */
  function CreateAndSave(c: Identity, s: State, active: seq<CA.Ref>, time: int, uid: int, fault: Fault): State {
    var name := NameFor(c, time);
    if name in s.workloads then
      // The object in hand never reached the API server, so it has no UID.
      if 0 in CA.Uids(active) || fault == SaveFails then s else Save(s, active + [CA.Ref(0, name)], time)
    else if fault == CreateFails then s
    else
      var s' := s.(workloads := s.workloads[name := uid], used := s.used + {uid}, events := s.events + [Created(time)]);
      if fault == SaveFails then s' else Save(s', active + [CA.Ref(uid, name)], time)
  }

  function Save(s: State, active: seq<CA.Ref>, time: int): State {
    s.(active := active, last := Some(time), events := s.events + [Saved(time)])
  }

  function Schedule(c: Identity, s: State, now: int, next: int -> int, policy: Policy, uid: int, fault: Fault): State {
    var time := NextScheduleTime(s.last, c.created, now, next);
    if time.None? || s.last == time then s
    else if policy == Forbid && s.active != [] then s
    else if policy == Replace && fault == ReplaceFails then s
    else
      var active := if policy == Replace then CA.Swept(s.active, CA.Uids(s.active)) else s.active;
      CreateAndSave(c, s, active, time.value, uid, fault)
  }

  function Apply(c: Identity, s: State, m: Move): State {
    match m
    case Pass(now, next, policy, dropped, uid, fault) =>
      if fault == Early then s
      else
        var trimmed := s.(active := CA.Without(s.active, dropped));
        if fault == Stopped then trimmed else Schedule(c, trimmed, now, next, policy, uid, fault)
    case Delete(name) => s.(workloads := s.workloads - {name}, events := s.events + [Deleted(name)])
    case Appear(name, uid) =>
      if name in s.workloads then s
      else s.(workloads := s.workloads[name := uid], used := s.used + {uid})
  }

  /** Moves that can happen: schedules advance or never fire, and the API server never gives a UID twice. */
  ghost predicate Possible(s: State, m: Move) {
    match m
    case Pass(_, next, _, _, uid, _) => (Advancing(next) || NeverFires(next)) && uid != 0 && uid !in s.used
    case Delete(_) => true
    case Appear(_, uid) => uid != 0 && uid !in s.used
  }

  function Init(): State {
    State(None, [], map[], {}, [])
  }

  function Run(c: Identity, moves: seq<Move>): State {
    if moves == [] then Init() else Apply(c, Run(c, moves[..|moves| - 1]), moves[|moves| - 1])
  }

  ghost predicate IsRun(c: Identity, moves: seq<Move>) {
    moves == []
    || (IsRun(c, moves[..|moves| - 1]) && Possible(Run(c, moves[..|moves| - 1]), moves[|moves| - 1]))
  }

  /** The code of one scheduling step. */

  class ApiServer {
    ghost var state: State
    var workloads: map<string, int>

    ghost predicate Valid() reads this {
      workloads == state.workloads
    }

    method Create(name: string, uid: int, ghost time: int, fails: bool) returns (exists_: bool, err: bool)
      requires Valid()
      modifies this
      ensures Valid()
      ensures exists_ <==> name in old(workloads)
      ensures err <==> name in old(workloads) || fails
      ensures state == if err then old(state) else
        old(state).(workloads := old(workloads)[name := uid], used := old(state).used + {uid},
                    events := old(state).events + [Created(time)])
    {
      exists_ := name in workloads;
      err := exists_ || fails;
      if !err {
        workloads := workloads[name := uid];
        state := state.(workloads := workloads, used := state.used + {uid}, events := state.events + [Created(time)]);
      }
    }

    method UpdateStatus(cron: CronObject, fails: bool) returns (err: bool)
      requires Valid() && cron.status.Valid() && cron.last.Some?
      modifies this
      ensures Valid() && err == fails
      ensures state == if fails then old(state) else Save(old(state), cron.status.Active(), cron.last.value)
    {
      err := fails;
      if !fails {
        state := Save(state, cron.status.Active(), cron.last.value);
      }
    }
  }

  /** The copy of the cron that a pass works on. */
  class CronObject {
    var status: CA.Cron
    var last: Option<int>

    constructor (active: seq<CA.Ref>, last: Option<int>)
      ensures this.last == last && status.Valid() && status.Active() == active && fresh(status) && fresh(status.buf)
    {
      status := new CA.Cron(active);
      this.last := last;
    }
  }

  /** Creation, and the status update with the new reference. */
  method CreateWorkload(api: ApiServer, c: Identity, cron: CronObject, time: int, uid: int, fault: Fault) returns (err: bool)
    requires api.Valid() && cron.status.Valid()
    modifies api, cron
    ensures api.Valid()
    ensures api.state == CreateAndSave(c, old(api.state), old(cron.status.Active()), time, uid, fault)
    ensures var taken := NameFor(c, time) in old(api.state).workloads;
      err <==> fault == SaveFails || (taken && 0 in CA.Uids(old(cron.status.Active()))) || (!taken && fault == CreateFails)
  {
    var name, ref := NameFor(c, time), uid;
    var exists_;
    exists_, err := api.Create(name, uid, time, fault == CreateFails);
    if exists_ {
      ref := 0;
      var known := cron.status.InActiveList(ref);
      if known {
        return;
      }
    } else if err {
      return;
    }
    cron.status := new CA.Cron(cron.status.Active() + [CA.Ref(ref, name)]);
    cron.last := Some(time);
    err := api.UpdateStatus(cron, fault == SaveFails);
  }

  method ScheduleNextIfPossible(api: ApiServer, c: Identity, cron: CronObject, now: int, next: int -> int, policy: Policy,
                                lookup: CA.Ref -> CA.Lookup, uid: int, fault: Fault)
    returns (err: bool)
    requires api.Valid() && cron.status.Valid() && cron.status.Active() == api.state.active && cron.last == api.state.last
    requires CA.DistinctUids(api.state.active) && (Advancing(next) || NeverFires(next))
    requires fault == NoFault || fault == CreateFails || fault == SaveFails
    modifies api, cron, cron.status, cron.status.buf
    ensures api.Valid()
    ensures !err ==> api.state == Schedule(c, old(api.state), now, next, policy, uid, fault)
    ensures !err && fault == SaveFails ==> api.state == old(api.state)
    ensures err && Advancing(next) ==> NextScheduleTime(old(api.state).last, c.created, now, next).Some?
    ensures err ==> api.state == Schedule(c, old(api.state), now, next, policy, uid, fault)
                    || api.state == Schedule(c, old(api.state), now, next, policy, uid, ReplaceFails)
  {
    ghost var before := api.state;
    NextIsLater(cron.last, c.created, now, next);
    var scheduledTime;
    scheduledTime, err := GetNextScheduleTime(cron.last, c.created, now, next);
    if err || scheduledTime == None {
      return;
    }
    if cron.last == scheduledTime {
      return;
    }
    if policy == Forbid && cron.status.len > 0 {
      return;
    }
    if policy == Replace {
      err := CA.DropActive(cron.status, lookup);
      if err {
        assert api.state == Schedule(c, before, now, next, policy, uid, ReplaceFails);
        return;
      }
    }
    err := CreateWorkload(api, c, cron, scheduledTime.value, uid, fault);
    assert api.state == Schedule(c, before, now, next, policy, uid, fault);
  }

  /** What every run keeps. */

  ghost predicate DeletedBetween(c: Identity, events: seq<Event>, i: nat, j: nat, time: int) {
    exists k :: i < k < j && k < |events| && events[k] == Deleted(NameFor(c, time))
  }

  /** Scheduled times only go up, and a time gets a second workload only after the first one was deleted. */
  ghost predicate GoodLog(c: Identity, events: seq<Event>) {
    && (forall i, j :: 0 <= i < j < |events| && events[i].Saved? && (events[j].Saved? || events[j].Created?) ==>
          events[i].time < events[j].time)
    && (forall i, j :: 0 <= i < j < |events| && events[i].Created? && events[j] == events[i] ==>
          DeletedBetween(c, events, i, j, events[i].time))
  }

  ghost predicate LogMatches(c: Identity, s: State) {
    && (forall i :: 0 <= i < |s.events| && s.events[i].Saved? ==> s.last.Some? && s.events[i].time <= s.last.value)
    && (forall i :: 0 <= i < |s.events| && s.events[i].Created? ==>
          s.events[i].time % SECOND == 0
          && (NameFor(c, s.events[i].time) in s.workloads
              || DeletedBetween(c, s.events, i, |s.events|, s.events[i].time)))
  }

  ghost predicate UidsMatch(s: State) {
    CA.DistinctUids(s.active) && 0 !in s.used && CA.Uids(s.active) <= s.used + {0}
  }

  ghost predicate Inv(c: Identity, s: State) {
    GoodLog(c, s.events) && LogMatches(c, s) && UidsMatch(s)
  }

  lemma LaterLog(c: Identity, events: seq<Event>, e: Event, i: nat, j: nat, time: int)
    requires DeletedBetween(c, events, i, j, time) && j <= |events|
    ensures DeletedBetween(c, events + [e], i, j, time) && DeletedBetween(c, events + [e], i, j + 1, time)
  {
    var k :| i < k < j && k < |events| && events[k] == Deleted(NameFor(c, time));
    assert (events + [e])[k] == events[k];
  }

  lemma LogGrows(c: Identity, s: State, e: Event)
    requires GoodLog(c, s.events) && LogMatches(c, s)
    requires (e.Saved? || e.Created?) && s.last.Some? ==> s.last.value < e.time
    requires e.Created? ==> NameFor(c, e.time) !in s.workloads
    ensures GoodLog(c, s.events + [e])
  {
    var n, events := |s.events|, s.events + [e];
    forall i, j | 0 <= i < j < |events| && events[i].Created? && events[j] == events[i]
      ensures DeletedBetween(c, events, i, j, events[i].time)
    {
      assert s.events[i] == events[i] && (j < n ==> s.events[j] == events[j]);
      LaterLog(c, s.events, e, i, j, events[i].time);
    }
    forall i, j | 0 <= i < j < |events| && events[i].Saved? && (events[j].Saved? || events[j].Created?)
      ensures events[i].time < events[j].time
    {
      assert s.events[i] == events[i] && (j < n ==> s.events[j] == events[j]);
    }
  }

  /** A created workload stays until it is deleted, whatever is logged next. */
  lemma MatchGrows(c: Identity, s: State, e: Event, s': State)
    requires LogMatches(c, s) && s'.events == s.events + [e]
    requires s.last == s'.last || (s'.last.Some? && (s.last.Some? ==> s.last.value <= s'.last.value))
    requires e.Saved? ==> s'.last.Some? && e.time <= s'.last.value
    requires e.Created? ==> e.time % SECOND == 0 && NameFor(c, e.time) in s'.workloads
    requires forall name :: name in s.workloads && name !in s'.workloads ==> e == Deleted(name)
    ensures LogMatches(c, s')
  {
    var n := |s.events|;
    forall i | 0 <= i < |s'.events| && s'.events[i].Created?
      ensures s'.events[i].time % SECOND == 0
      ensures NameFor(c, s'.events[i].time) in s'.workloads
              || DeletedBetween(c, s'.events, i, |s'.events|, s'.events[i].time)
    {
      if i < n {
        assert s.events[i] == s'.events[i];
        var time := s.events[i].time;
        if NameFor(c, time) in s.workloads {
          assert s'.events[n] == e;
        } else {
          LaterLog(c, s.events, e, i, n, time);
        }
      }
    }
    forall i | 0 <= i < |s'.events| && s'.events[i].Saved?
      ensures s'.last.Some? && s'.events[i].time <= s'.last.value
    {
      assert i < n ==> s.events[i] == s'.events[i];
    }
  }

  lemma SaveKeepsInv(c: Identity, s: State, active: seq<CA.Ref>, time: int)
    requires Inv(c, s) && (s.last.Some? ==> s.last.value < time)
    requires CA.DistinctUids(active) && CA.Uids(active) <= s.used + {0}
    ensures Inv(c, Save(s, active, time))
  {
    LogGrows(c, s, Saved(time));
    MatchGrows(c, s, Saved(time), Save(s, active, time));
  }

  lemma CreateKeepsInv(c: Identity, s: State, time: int, uid: int, s': State)
    requires Inv(c, s) && time % SECOND == 0 && (s.last.Some? ==> s.last.value < time)
    requires NameFor(c, time) !in s.workloads && uid != 0
    requires s' == s.(workloads := s.workloads[NameFor(c, time) := uid], used := s.used + {uid},
                      events := s.events + [Created(time)])
    ensures Inv(c, s')
  {
    LogGrows(c, s, Created(time));
    MatchGrows(c, s, Created(time), s');
  }

  lemma DeleteKeepsInv(c: Identity, s: State, name: string, s': State)
    requires Inv(c, s) && s' == s.(workloads := s.workloads - {name}, events := s.events + [Deleted(name)])
    ensures Inv(c, s')
  {
    LogGrows(c, s, Deleted(name));
    MatchGrows(c, s, Deleted(name), s');
  }

  /** The list a pass hands on is part of the saved one. */
  lemma PartKeepsInv(c: Identity, s: State, dropped: set<int>)
    requires Inv(c, s)
    ensures Inv(c, s.(active := CA.Without(s.active, dropped)))
  {
    CA.WithoutShape(s.active, dropped);
  }

  lemma SweptPart(active: seq<CA.Ref>)
    requires CA.DistinctUids(active)
    ensures var rest := CA.Swept(active, CA.Uids(active));
      CA.DistinctUids(rest) && CA.Uids(rest) <= CA.Uids(active)
  {
    CA.SweptIsWithout(active, CA.Uids(active));
    CA.WithoutShape(active, CA.Uids(active) - CA.Uids(CA.Swept(active, CA.Uids(active))));
  }

  lemma AppendUid(active: seq<CA.Ref>, r: CA.Ref)
    requires CA.DistinctUids(active) && r.uid !in CA.Uids(active)
    ensures CA.DistinctUids(active + [r]) && CA.Uids(active + [r]) == CA.Uids(active) + {r.uid}
  {
    var all := active + [r];
    assert forall x :: x in all <==> x in active || x == r;
    forall i | 0 <= i < |active| ensures active[i].uid in CA.Uids(active) {
      assert active[i] in active;
    }
  }

  lemma CreateAndSaveKeepsInv(c: Identity, s: State, active: seq<CA.Ref>, time: int, uid: int, fault: Fault)
    requires Inv(c, s) && time % SECOND == 0 && (s.last.Some? ==> s.last.value < time)
    requires CA.DistinctUids(active) && CA.Uids(active) <= CA.Uids(s.active) && uid != 0 && uid !in s.used
    ensures Inv(c, CreateAndSave(c, s, active, time, uid, fault))
  {
    var name := NameFor(c, time);
    if name in s.workloads {
      if 0 !in CA.Uids(active) && fault != SaveFails {
        AppendUid(active, CA.Ref(0, name));
        SaveKeepsInv(c, s, active + [CA.Ref(0, name)], time);
      }
    } else if fault != CreateFails {
      var s' := s.(workloads := s.workloads[name := uid], used := s.used + {uid}, events := s.events + [Created(time)]);
      CreateKeepsInv(c, s, time, uid, s');
      AppendUid(active, CA.Ref(uid, name));
      SaveKeepsInv(c, s', active + [CA.Ref(uid, name)], time);
    }
  }

  lemma StepKeepsInv(c: Identity, s: State, m: Move)
    requires Inv(c, s) && Possible(s, m)
    ensures Inv(c, Apply(c, s, m))
  {
    match m
    case Pass(now, next, policy, dropped, uid, fault) =>
      PartKeepsInv(c, s, dropped);
      var t := s.(active := CA.Without(s.active, dropped));
      NextIsLater(t.last, c.created, now, next);
      SweptPart(t.active);
      var time := NextScheduleTime(t.last, c.created, now, next);
      if time.Some? {
        NextIsWholeSecond(t.last, c.created, now, next);
        CreateAndSaveKeepsInv(c, t, t.active, time.value, uid, fault);
        CreateAndSaveKeepsInv(c, t, CA.Swept(t.active, CA.Uids(t.active)), time.value, uid, fault);
      }
    case Delete(name) => DeleteKeepsInv(c, s, name, Apply(c, s, m));
    case Appear(_, _) =>
  }

  /**
   In every run: scheduled times go up, no workload is created for a time that was saved or for an earlier one,
   and between two workloads of one scheduled time the first one was deleted. The active list always has
   distinct UIDs.
   */
  lemma {:induction false} RunKeepsInv(c: Identity, moves: seq<Move>)
    requires IsRun(c, moves)
    ensures Inv(c, Run(c, moves))
  {
    if moves != [] {
      RunKeepsInv(c, moves[..|moves| - 1]);
      StepKeepsInv(c, Run(c, moves[..|moves| - 1]), moves[|moves| - 1]);
    }
  }

  /** Workloads of different scheduled times never share a name. */
  lemma TimesHaveOwnNames(c: Identity, moves: seq<Move>, t: int, u: int)
    requires IsRun(c, moves) && Created(t) in Run(c, moves).events && Created(u) in Run(c, moves).events
    ensures NameFor(c, t) == NameFor(c, u) <==> t == u
  {
    RunKeepsInv(c, moves);
    if t / SECOND != u / SECOND {
      Names.DefaultNamesDiffer(c.name, t / SECOND, u / SECOND);
    }
  }

  /** Each pass leaves the last scheduled time or raises it. */
  lemma LastOnlyRises(c: Identity, s: State, m: Move)
    requires Possible(s, m)
    ensures var s' := Apply(c, s, m);
      s'.last == s.last || (s'.last.Some? && (s.last.Some? ==> s.last.value < s'.last.value))
  {
    if m.Pass? {
      NextIsLater(s.last, c.created, m.now, m.next);
    }
  }

  /** Concurrency. */

  ghost predicate Serial(moves: seq<Move>, policy: Policy) {
    forall i :: 0 <= i < |moves| && moves[i].Pass? ==> moves[i].policy == policy
  }

  lemma CreateAndSaveBounds(c: Identity, s: State, active: seq<CA.Ref>, time: int, uid: int, fault: Fault)
    ensures var after := CreateAndSave(c, s, active, time, uid, fault).active;
      after == s.active || |after| == |active| + 1
  {
  }

  /** One pass under Forbid or Replace: the list never gets longer than it was, or than one entry. */
  lemma PassBoundsActive(c: Identity, s: State, m: Move)
    requires Inv(c, s) && (m.Pass? ==> m.policy != Allow)
    ensures |Apply(c, s, m).active| <= if |s.active| <= 1 then 1 else |s.active|
  {
    if m.Pass? {
      var trimmed := CA.Without(s.active, m.dropped);
      CA.WithoutShape(s.active, m.dropped);
      ShorterWithout(s.active, m.dropped);
      CA.ReplaceLeaves(trimmed);
      ScheduleBounds(c, s.(active := trimmed), m.now, m.next, m.policy, m.uid, m.fault);
    }
  }

  lemma ScheduleBounds(c: Identity, s: State, now: int, next: int -> int, policy: Policy, uid: int, fault: Fault)
    ensures var after, swept := Schedule(c, s, now, next, policy, uid, fault).active, CA.Swept(s.active, CA.Uids(s.active));
      || after == s.active
      || (policy == Forbid && s.active == [] && |after| == 1)
      || (policy == Replace && |after| == |swept| + 1)
      || policy == Allow
  {
    var time := NextScheduleTime(s.last, c.created, now, next);
    if time.Some? {
      CreateAndSaveBounds(c, s, s.active, time.value, uid, fault);
      CreateAndSaveBounds(c, s, CA.Swept(s.active, CA.Uids(s.active)), time.value, uid, fault);
    }
  }

  lemma {:induction false} ShorterWithout(refs: seq<CA.Ref>, dropped: set<int>)
    ensures |CA.Without(refs, dropped)| <= |refs|
  {
    if refs != [] {
      ShorterWithout(refs[1..], dropped);
    }
  }

  /** Under a fixed Forbid or Replace policy at most one workload is ever listed as active. */
  lemma {:induction false} AtMostOneActive(c: Identity, moves: seq<Move>, policy: Policy)
    requires IsRun(c, moves) && Serial(moves, policy) && policy != Allow
    ensures |Run(c, moves).active| <= 1
  {
    if moves != [] {
      var front, m := moves[..|moves| - 1], moves[|moves| - 1];
      AtMostOneActive(c, front, policy);
      RunKeepsInv(c, front);
      assert m.Pass? ==> m.policy == policy;
      PassBoundsActive(c, Run(c, front), m);
    }
  }

  /** What a pass saves. */

  /** When a time is due: a first scheduled time after the last one (or after the creation) has come. */
  lemma DueIff(last: Option<int>, created: int, now: int, next: int -> int)
    requires Advancing(next)
    ensures var earliest := if last.Some? then last.value else created;
      var time := NextScheduleTime(last, created, now, next);
      && (time.Some? <==> next(earliest) <= now)
      && (time.Some? ==> next(earliest) <= time.value <= now < time.value + (next(next(earliest)) - next(earliest)))
  {
    var earliest := if last.Some? then last.value else created;
    if next(earliest) <= now {
      ClosedFormBounds(next, next(earliest), now);
    }
  }

  /** A pass with nothing in its way: a time is due, and the policy has nothing against another workload. */
  predicate Free(c: Identity, s: State, m: Move) {
    && m.Pass? && m.fault != Early && m.fault != Stopped
    && NextScheduleTime(s.last, c.created, m.now, m.next).Some?
    && (m.policy == Forbid ==> CA.Without(s.active, m.dropped) == [])
  }

  /** The entries that a saving pass keeps beside the new one. */
  function Beside(s: State, m: Move): seq<CA.Ref>
    requires m.Pass?
  {
    var trimmed := CA.Without(s.active, m.dropped);
    if m.policy == Replace then CA.Swept(trimmed, CA.Uids(trimmed)) else trimmed
  }

  /**
   A pass with nothing in its way, whose name is free and which does not fail, creates the workload under its new UID
   and saves it: the due time becomes the last one, and one entry with that UID and name follows those that are kept.
   Which of these happen is exactly a matter of the fault.
   */
  lemma FreshPassSaves(c: Identity, s: State, m: Move)
    requires Inv(c, s) && Possible(s, m) && Free(c, s, m)
    requires Names.GetDefaultJobName(c.name, NextScheduleTime(s.last, c.created, m.now, m.next).value / SECOND) !in s.workloads
    ensures var time := NextScheduleTime(s.last, c.created, m.now, m.next).value;
      var name, s' := Names.GetDefaultJobName(c.name, time / SECOND), Apply(c, s, m);
      var replaceFails := m.policy == Replace && m.fault == ReplaceFails;
      && (name in s'.workloads <==> !replaceFails && m.fault != CreateFails)
      && (name in s'.workloads ==> s'.workloads == s.workloads[name := m.uid] && s'.used == s.used + {m.uid})
      && (name !in s'.workloads ==> s'.workloads == s.workloads && s'.used == s.used)
      && (s'.last == Some(time) <==> name in s'.workloads && m.fault != SaveFails)
      && (s'.last == Some(time) ==> s'.active == Beside(s, m) + [CA.Ref(m.uid, name)])
      && (s'.last != Some(time) ==> s'.last == s.last && s'.active == CA.Without(s.active, m.dropped))
      && s'.events == s.events + (if name in s'.workloads then [Created(time)] else [])
                               + (if s'.last == Some(time) then [Saved(time)] else [])
  {
    NextIsLater(s.last, c.created, m.now, m.next);
  }

  /** A pass that finds its name taken creates nothing; it saves the time unless the list keeps an entry without UID. */
  lemma TakenPassSaves(c: Identity, s: State, m: Move)
    requires Inv(c, s) && Possible(s, m) && Free(c, s, m) && !(m.policy == Replace && m.fault == ReplaceFails)
    requires Names.GetDefaultJobName(c.name, NextScheduleTime(s.last, c.created, m.now, m.next).value / SECOND) in s.workloads
    ensures var time := NextScheduleTime(s.last, c.created, m.now, m.next).value;
      var name, s' := Names.GetDefaultJobName(c.name, time / SECOND), Apply(c, s, m);
      var saves := 0 !in CA.Uids(Beside(s, m)) && m.fault != SaveFails;
      && s'.workloads == s.workloads && s'.used == s.used
      && s'.last == (if saves then Some(time) else s.last)
      && s'.active == (if saves then Beside(s, m) + [CA.Ref(0, name)] else CA.Without(s.active, m.dropped))
      && s'.events == if saves then s.events + [Saved(time)] else s.events
  {
    NextIsLater(s.last, c.created, m.now, m.next);
  }

  /** Any other pass only trims, if it gets that far. */
  lemma HeldPassTrims(c: Identity, s: State, m: Move)
    requires Inv(c, s) && Possible(s, m) && m.Pass? && !Free(c, s, m)
    ensures Apply(c, s, m) == if m.fault == Early then s else s.(active := CA.Without(s.active, m.dropped))
  {
  }

  /** Event `i` of a run, a creation, was logged by a pass; unless that pass lost its save, its save is the next event. */
  lemma {:induction false} CreationIsSaved(c: Identity, moves: seq<Move>, i: nat) returns (k: nat)
    requires IsRun(c, moves) && i < |Run(c, moves).events| && Run(c, moves).events[i].Created?
    ensures k < |moves| && moves[k].Pass? && |Run(c, moves[..k]).events| == i
    ensures var events := Run(c, moves).events;
      moves[k].fault != SaveFails ==> i + 1 < |events| && events[i + 1] == Saved(events[i].time)
  {
    var front, m := moves[..|moves| - 1], moves[|moves| - 1];
    var s, s' := Run(c, front), Run(c, moves);
    RunKeepsInv(c, front);
    if i < |s.events| {
      EventsGrow(c, s, m);
      assert s'.events[i] == s.events[i];
      k := CreationIsSaved(c, front, i);
      assert front[..k] == moves[..k];
      if moves[k].fault != SaveFails {
        assert s'.events[i + 1] == s.events[i + 1];
      }
    } else {
      k := |front|;
      assert moves[..k] == front;
      EventsGrow(c, s, m);
    }
  }

  lemma EventsGrow(c: Identity, s: State, m: Move)
    requires Inv(c, s) && Possible(s, m)
    ensures s.events <= Apply(c, s, m).events
    ensures var events := Apply(c, s, m).events;
      forall i :: |s.events| <= i < |events| && events[i].Created? ==>
        i == |s.events| && m.Pass? && (m.fault != SaveFails ==> i + 1 < |events| && events[i + 1] == Saved(events[i].time))
  {
    if m.Pass? {
      NextIsLater(s.last, c.created, m.now, m.next);
      if Free(c, s, m) {
        if NameFor(c, NextScheduleTime(s.last, c.created, m.now, m.next).value) !in s.workloads {
          FreshPassSaves(c, s, m);
        }
      } else {
        HeldPassTrims(c, s, m);
      }
    }
  }

  /** Entries without UID. */

  function Trimmed(s: State, m: Move): seq<CA.Ref>
    requires m.Pass?
  {
    CA.Without(s.active, m.dropped)
  }

  /** The entries a saving pass keeps beside the new one: all it has trimmed, or what the Replace loop leaves of them. */
  function Kept(s: State, m: Move): seq<CA.Ref>
    requires m.Pass?
  {
    if m.policy == Replace then CA.Swept(Trimmed(s, m), CA.Uids(Trimmed(s, m))) else Trimmed(s, m)
  }

  function DueTime(c: Identity, s: State, m: Move): Option<int>
    requires m.Pass?
  {
    NextScheduleTime(s.last, c.created, m.now, m.next)
  }

  /** The pass gets as far as creating a workload. */
  predicate LetThrough(c: Identity, s: State, m: Move) {
    && m.Pass? && m.fault != Early && m.fault != Stopped && DueTime(c, s, m).Some?
    && (m.policy == Forbid ==> Trimmed(s, m) == [])
    && (m.policy == Replace ==> m.fault != ReplaceFails)
  }

  /** The pass saves a new scheduled time, and with it a new entry at the end of the list. */
  predicate Saves(c: Identity, s: State, m: Move) {
    Apply(c, s, m).last != s.last
  }

  predicate SavesNoUid(c: Identity, s: State, m: Move) {
    var active := Apply(c, s, m).active;
    Saves(c, s, m) && active != [] && active[|active| - 1].uid == 0
  }

  lemma PassShape(c: Identity, s: State, m: Move)
    requires Possible(s, m) && m.Pass?
    ensures var s' := Apply(c, s, m);
      && (Saves(c, s, m) ==> LetThrough(c, s, m) && m.fault != SaveFails && s'.active != []
                             && s'.active[..|s'.active| - 1] == Kept(s, m))
      && (!Saves(c, s, m) ==> s'.active == if m.fault == Early then s.active else Trimmed(s, m))
      && (SavesNoUid(c, s, m) ==> NameFor(c, DueTime(c, s, m).value) in s.workloads)
  {
    NextIsLater(s.last, c.created, m.now, m.next);
  }

  /**
   A pass saves a new entry without UID exactly if a time is due, the policy lets it through, no fault stops it,
   no entry without UID is kept, and the workload of that time already exists.
   */
  lemma SavesNoUidIff(c: Identity, s: State, m: Move)
    requires Inv(c, s) && Possible(s, m)
    ensures SavesNoUid(c, s, m) <==>
              && LetThrough(c, s, m) && m.fault != SaveFails
              && 0 !in CA.Uids(Kept(s, m))
              && NameFor(c, DueTime(c, s, m).value) in s.workloads
  {
    if m.Pass? {
      NextIsLater(s.last, c.created, m.now, m.next);
      PassShape(c, s, m);
    }
  }

  /**
   After a pass that created a workload and lost its save, any pass at which the same time is due, at whatever
   clock reading and under whatever policy, saves an entry without UID exactly if it gets through and keeps none.
   */
  lemma LostSaveLeadsToNoUid(c: Identity, s: State, m: Move, m': Move)
    requires Inv(c, s) && Possible(s, m) && LetThrough(c, s, m) && m.fault == SaveFails && m'.Pass?
    ensures var s1 := Apply(c, s, m);
      && NameFor(c, DueTime(c, s, m).value) in s1.workloads && s1.last == s.last
      && (Possible(s1, m') && DueTime(c, s1, m') == DueTime(c, s, m) ==>
            (SavesNoUid(c, s1, m') <==> LetThrough(c, s1, m') && m'.fault != SaveFails && 0 !in CA.Uids(Kept(s1, m'))))
  {
    NextIsLater(s.last, c.created, m.now, m.next);
    StepKeepsInv(c, s, m);
    if Possible(Apply(c, s, m), m') {
      SavesNoUidIff(c, Apply(c, s, m), m');
    }
  }

  /**
   Exactly these moves drop an entry without UID: a pass whose trim drops it, or whose Replace loop sweeps it away
   before saving another one, unless what it saves is again an entry without UID. Deleting the workload alone does not.
   */
  lemma DropsNoUidIff(c: Identity, s: State, m: Move)
    requires Inv(c, s) && Possible(s, m) && 0 in CA.Uids(s.active)
    ensures 0 !in CA.Uids(Apply(c, s, m).active) <==>
              && m.Pass? && m.fault != Early && !SavesNoUid(c, s, m)
              && (0 in m.dropped
                  || (m.policy == Replace && Saves(c, s, m)
                      && 0 !in CA.Uids(CA.Swept(Trimmed(s, m), CA.Uids(Trimmed(s, m))))))
  {
    if m.Pass? {
      CA.WithoutShape(s.active, m.dropped);
      SweptPart(Trimmed(s, m));
      PassShape(c, s, m);
      var active := Apply(c, s, m).active;
      if Saves(c, s, m) {
        LastUid(active);
      }
    }
  }

  lemma LastUid(active: seq<CA.Ref>)
    requires active != []
    ensures CA.Uids(active) == CA.Uids(active[..|active| - 1]) + {active[|active| - 1].uid}
  {
    var front, last := active[..|active| - 1], active[|active| - 1];
    assert active == front + [last];
    assert forall x :: x in active <==> x in front || x == last;
  }

  lemma {:induction false} WorkloadsHaveUids(ws: seq<CA.Workload>)
    requires forall i :: 0 <= i < |ws| ==> ws[i].uid != 0
    ensures 0 !in CA.FinishedUids(ws) && 0 !in CA.KnownUids(ws)
  {
    if ws != [] {
      WorkloadsHaveUids(ws[..|ws| - 1]);
    }
  }

  /** A whole trim, over listed workloads that all have UIDs, keeps an entry without UID as long as its name is found. */
  lemma TrimKeepsNoUid(refs: seq<CA.Ref>, ws: seq<CA.Workload>, lookup: CA.Ref -> CA.Lookup)
    requires CA.DistinctUids(refs) && 0 in CA.Uids(refs) && forall i :: 0 <= i < |ws| ==> ws[i].uid != 0
    requires forall r :: r in refs && r.uid == 0 ==> lookup(r) != CA.NotFound
    ensures 0 in CA.Uids(CA.Trimmed(refs, ws, lookup))
  {
    var unfinished, gone := CA.Unfinished(refs, ws), CA.MissingOf(refs, ws, lookup);
    WorkloadsHaveUids(ws);
    CA.WithoutShape(refs, CA.FinishedUids(ws));
    WithoutPart(refs, CA.FinishedUids(ws));
    CA.SweptIsWithout(unfinished, gone);
    CA.WithoutShape(unfinished, gone - CA.Uids(CA.Swept(unfinished, gone)));
  }

  lemma {:induction false} WithoutPart(refs: seq<CA.Ref>, gone: set<int>)
    ensures forall r :: r in CA.Without(refs, gone) ==> r in refs
  {
    if refs != [] {
      WithoutPart(refs[1..], gone);
    }
  }

  /** If no unfinished entry before it is missing, the trim drops it exactly if its name is not found. */
  lemma TrimDropsNoUidIff(refs: seq<CA.Ref>, ws: seq<CA.Workload>, lookup: CA.Ref -> CA.Lookup, p: nat)
    requires CA.DistinctUids(refs) && forall i :: 0 <= i < |ws| ==> ws[i].uid != 0
    requires p < |CA.Unfinished(refs, ws)| && CA.Unfinished(refs, ws)[p].uid == 0
    requires forall k :: 0 <= k < p ==> !CA.IsMissing(CA.Unfinished(refs, ws)[k], CA.KnownUids(ws), lookup)
    ensures 0 !in CA.Uids(CA.Trimmed(refs, ws, lookup)) <==>
              lookup(CA.Unfinished(refs, ws)[p]) == CA.NotFound
  {
    var unfinished, gone := CA.Unfinished(refs, ws), CA.MissingOf(refs, ws, lookup);
    WorkloadsHaveUids(ws);
    CA.WithoutShape(refs, CA.FinishedUids(ws));
    CA.MissingMeaning(unfinished, unfinished[p], CA.KnownUids(ws), lookup);
    if lookup(unfinished[p]) == CA.NotFound {
      forall k | 0 <= k < p ensures unfinished[k].uid !in gone {
        CA.MissingMeaning(unfinished, unfinished[k], CA.KnownUids(ws), lookup);
      }
      CA.FirstMissingGoes(unfinished, gone, p);
    } else {
      CA.SweptIsWithout(unfinished, gone);
      CA.WithoutShape(unfinished, gone - CA.Uids(CA.Swept(unfinished, gone)));
      assert unfinished[p] in unfinished;
    }
  }
}
