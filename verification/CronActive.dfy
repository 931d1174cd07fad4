/**
 Trimming the list of active workloads (controllers/apps/cron_controller.go).

 The list is compacted in place while a `range` loop reads the very same backing array, so the loop skips
 the entry that moves into a freed place and reads stale entries at the end. `Swept` says exactly what is
 left.
 */
module CronActive {
  import opened Common

  datatype Ref = Ref(uid: int, name: string)

  datatype Workload = Workload(uid: int, finished: bool)

  /** What the API server says about a referenced workload. */
  datatype Lookup = Present | NotFound | LookupError | UnsupportedKind

  function Uids(refs: seq<Ref>): set<int> {
    set r | r in refs :: r.uid
  }

  ghost predicate DistinctUids(refs: seq<Ref>) {
    forall i, j :: 0 <= i < j < |refs| ==> refs[i].uid != refs[j].uid
  }

  /** The list without the first reference to `uid`. */
  function Remove(refs: seq<Ref>, uid: int): seq<Ref> {
    if refs == [] then []
    else if refs[0].uid == uid then refs[1..]
    else [refs[0]] + Remove(refs[1..], uid)
  }

  /** The list without any of the `removed`, in order. */
  function Without(refs: seq<Ref>, removed: set<int>): seq<Ref> {
    if refs == [] then []
    else if refs[0].uid in removed then Without(refs[1..], removed)
    else [refs[0]] + Without(refs[1..], removed)
  }

  /** One walk over the list: each deletion hides the entry after it. */
  function Walked(refs: seq<Ref>, gone: set<int>): seq<Ref> {
    if refs == [] then []
    else if refs[0].uid !in gone then [refs[0]] + Walked(refs[1..], gone)
    else if |refs| == 1 then []
    else [refs[1]] + Walked(refs[2..], gone)
  }

  /** After any deletion the walk ends on stale copies of the last entry, which is thus looked at once more. */
  function Swept(refs: seq<Ref>, gone: set<int>): seq<Ref> {
    var walked := Walked(refs, gone);
    if |walked| < |refs| && refs[|refs| - 1].uid in gone then Remove(walked, refs[|refs| - 1].uid) else walked
  }

  function Count(refs: seq<Ref>, gone: set<int>): nat {
    if refs == [] then 0 else Count(refs[1..], gone) + if refs[0].uid in gone then 1 else 0
  }

  lemma {:induction false} RemoveFirst(refs: seq<Ref>, uid: int, i: nat)
    requires i <= |refs| && forall k :: 0 <= k < i ==> refs[k].uid != uid
    requires i < |refs| ==> refs[i].uid == uid
    ensures Remove(refs, uid) == if i == |refs| then refs else refs[..i] + refs[i + 1..]
  {
    if i > 0 {
      RemoveFirst(refs[1..], uid, i - 1);
      assert refs == [refs[0]] + refs[1..] && refs[..i] == [refs[0]] + refs[1..][..i - 1];
      assert i < |refs| ==> refs[1..][i..] == refs[i + 1..];
    }
  }

  /** The code. */

  /** Go's copy of places i+1 .. n-1 to place i. */
  method CopyDown(buf: array<Ref>, i: nat, n: nat)
    requires i < n <= buf.Length
    modifies buf
    ensures buf[..n - 1] == old(buf[..i]) + old(buf[i + 1..n])
    ensures forall k :: n - 1 <= k < buf.Length ==> buf[k] == old(buf[k])
  {
    ghost var front, back := buf[..i], buf[i + 1..n];
    forall k | i <= k < n - 1 {
      buf[k] := buf[k + 1];
    }
    assert buf[..i] == front && buf[i..n - 1] == back;
  }

  class Cron {
    var buf: array<Ref>
    var len: nat

    ghost predicate Valid() reads this {
      len <= buf.Length
    }

    function Active(): seq<Ref>
      requires Valid()
      reads this, buf
    {
      buf[..len]
    }

    constructor (active: seq<Ref>)
      ensures Valid() && fresh(buf) && Active() == active
    {
      buf := new Ref[|active|](i requires 0 <= i < |active| => active[i]);
      len := |active|;
    }

    method InActiveList(uid: int) returns (found: bool)
      requires Valid()
      ensures found <==> uid in Uids(Active())
    {
      for i := 0 to len
        invariant forall k :: 0 <= k < i ==> buf[k].uid != uid
      {
        if buf[i].uid == uid {
          assert Active()[i] in Active();
          return true;
        }
      }
      return false;
    }

    /** The later references move one place down; nothing beyond the new end of the list is written. */
    method DeleteFromActiveList(uid: int)
      requires Valid()
      modifies this`len, buf
      ensures Valid()
      ensures Active() == Remove(old(Active()), uid)
      ensures forall k :: len <= k < buf.Length ==> buf[k] == old(buf[k])
    {
      var i := 0;
      while i < len && buf[i].uid != uid
        invariant i <= len && forall k :: 0 <= k < i ==> buf[k].uid != uid
      {
        i := i + 1;
      }
      ghost var before := Active();
      RemoveFirst(before, uid, i);
      if i == len {
        return;
      }
      CopyDown(buf, i, len);
      len := len - 1;
      assert before[..i] == old(buf[..i]) && before[i + 1..] == old(buf[i + 1..len]);
    }
  }

  lemma Prepend(r: Ref, rest: seq<Ref>)
    requires DistinctUids(rest) && r.uid !in Uids(rest)
    ensures DistinctUids([r] + rest) && Uids([r] + rest) == {r.uid} + Uids(rest)
  {
    var all := [r] + rest;
    assert all[0] == r && all[1..] == rest;
    forall j | 0 <= j < |rest| ensures rest[j].uid in Uids(rest) {
      assert rest[j] in rest;
    }
    assert forall x :: x in all <==> x == r || x in rest;
  }

  lemma DropUids(refs: seq<Ref>, k: nat)
    requires DistinctUids(refs) && 0 < k <= |refs|
    ensures DistinctUids(refs[k..]) && Uids(refs[k..]) <= Uids(refs)
    ensures refs[k - 1].uid in Uids(refs) && refs[k - 1].uid !in Uids(refs[k..])
  {
    assert forall r :: r in refs[k..] ==> r in refs;
    assert refs[k - 1] in refs;
  }

  ghost predicate LeftOf(walked: seq<Ref>, refs: seq<Ref>) {
    && |walked| <= |refs| && DistinctUids(walked) && Uids(walked) <= Uids(refs)
    && (refs != [] ==> EndsOrLacks(walked, refs[|refs| - 1]))
  }

  /** A walk leaves some of the entries, and the last entry can only be left at the end. */
  lemma {:induction false} WalkedShape(refs: seq<Ref>, gone: set<int>)
    requires DistinctUids(refs)
    ensures LeftOf(Walked(refs, gone), refs)
  {
    if refs != [] {
      var k := if refs[0].uid in gone then 2 else 1;
      if k <= |refs| {
        DropUids(refs, k);
        WalkedShape(refs[k..], gone);
        LeftStep(Walked(refs[k..], gone), refs, k);
      }
    }
  }

  lemma LeftStep(rest: seq<Ref>, refs: seq<Ref>, k: nat)
    requires DistinctUids(refs) && 0 < k <= |refs| && LeftOf(rest, refs[k..])
    ensures LeftOf([refs[k - 1]] + rest, refs)
  {
    DropUids(refs, k);
    Prepend(refs[k - 1], rest);
    if k < |refs| {
      DropUids(refs, k);
      assert refs[k..][|refs| - k - 1] == refs[|refs| - 1];
    }
  }

  ghost predicate EndsOrLacks(refs: seq<Ref>, last: Ref) {
    last.uid !in Uids(refs) || (refs != [] && refs[|refs| - 1] == last)
  }

  lemma LacksUid(refs: seq<Ref>, uid: int)
    requires uid !in Uids(refs)
    ensures Remove(refs, uid) == refs
  {
    forall k | 0 <= k < |refs| ensures refs[k].uid != uid {
      assert refs[k] in refs;
    }
    RemoveFirst(refs, uid, |refs|);
  }

  /** Removing an entry that can only stand last. */
  lemma RemoveLast(refs: seq<Ref>, last: Ref)
    requires DistinctUids(refs) && EndsOrLacks(refs, last)
    ensures Remove(refs, last.uid) == if last.uid in Uids(refs) then refs[..|refs| - 1] else refs
    ensures last.uid !in Uids(Remove(refs, last.uid)) && DistinctUids(Remove(refs, last.uid))
  {
    if last.uid in Uids(refs) {
      RemoveFirst(refs, last.uid, |refs| - 1);
    } else {
      LacksUid(refs, last.uid);
    }
  }

  /** The walk over the list. */

  /** `front` has been walked and `rest` not yet; `over` once a stale entry was read or no place is left. */
  datatype Walk = Walk(front: seq<Ref>, rest: seq<Ref>, over: bool) {
    function Active(): seq<Ref> {
      front + rest
    }
  }

  function Last(refs: seq<Ref>): Ref
    requires refs != []
  {
    refs[|refs| - 1]
  }

  /** Where the walk over `refs` stands before it reads place `i`. */
  ghost predicate Walking(w: Walk, refs: seq<Ref>, gone: set<int>, i: nat)
    requires refs != []
  {
    && i <= |refs| && |w.Active()| <= |refs| && DistinctUids(w.Active())
    && (w.over ==> w.rest == [] && |w.front| < i && w.front == Swept(refs, gone))
    && (!w.over ==> |w.front| == i && w.front + Walked(w.rest, gone) == Walked(refs, gone))
    && (w.rest != [] ==> Last(w.rest) == Last(refs))
    && (forall r :: r in w.rest ==> r in refs)
  }

  /** The entry found at the next place. */
  function Read(w: Walk, refs: seq<Ref>): Ref
    requires refs != []
  {
    if w.rest == [] then Last(refs) else w.rest[0]
  }

  function Passed(w: Walk): Walk {
    if w.rest == [] then w.(over := true) else Walk(w.front + [w.rest[0]], w.rest[1..], false)
  }

  /** After a deletion the entry behind the deleted one stands at a place that was already read. */
  function Deleted(w: Walk, refs: seq<Ref>): Walk
    requires refs != []
  {
    if w.rest == [] then Walk(Remove(w.front, Last(refs).uid), [], true)
    else if |w.rest| == 1 then Walk(w.front, [], true)
    else Walk(w.front + [w.rest[1]], w.rest[2..], false)
  }

  lemma PassedKeeps(w: Walk, refs: seq<Ref>, gone: set<int>, i: nat)
    requires refs != [] && Walking(w, refs, gone, i) && i < |refs| && Read(w, refs).uid !in gone
    ensures Walking(Passed(w), refs, gone, i + 1)
    ensures Passed(w).Active() == w.Active()
  {
    if w.rest != [] {
      var w' := Passed(w);
      assert w'.Active() == w.Active();
      assert w'.front + Walked(w'.rest, gone) == w.front + Walked(w.rest, gone);
    }
  }

  lemma DeletedKeeps(w: Walk, refs: seq<Ref>, gone: set<int>, i: nat)
    requires refs != [] && DistinctUids(refs) && Walking(w, refs, gone, i) && i < |refs| && Read(w, refs).uid in gone
    ensures Walking(Deleted(w, refs), refs, gone, i + 1)
    ensures Deleted(w, refs).Active() == Remove(w.Active(), Read(w, refs).uid)
    ensures |Deleted(w, refs).Active()| < |w.Active()| ==> Last(w.Active()) == Last(refs)
  {
    if w.rest == [] {
      StaleDeleted(w, refs, gone, i);
    } else {
      ListedDeleted(w, refs, gone, i);
    }
  }

  lemma StaleDeleted(w: Walk, refs: seq<Ref>, gone: set<int>, i: nat)
    requires refs != [] && DistinctUids(refs) && Walking(w, refs, gone, i) && i < |refs| && w.rest == []
    requires Last(refs).uid in gone
    ensures Walking(Deleted(w, refs), refs, gone, i + 1)
    ensures Deleted(w, refs).Active() == Remove(w.Active(), Last(refs).uid)
    ensures |Deleted(w, refs).Active()| < |w.Active()| ==> Last(w.Active()) == Last(refs)
  {
    WalkedShape(refs, gone);
    RemoveLast(Walked(refs, gone), Last(refs));
    assert w.Active() == w.front;
    if w.over {
      LacksUid(w.front, Last(refs).uid);
    } else {
      assert w.front == Walked(refs, gone);
    }
  }

  lemma ListedDeleted(w: Walk, refs: seq<Ref>, gone: set<int>, i: nat)
    requires refs != [] && DistinctUids(refs) && Walking(w, refs, gone, i) && w.rest != [] && w.rest[0].uid in gone
    ensures Walking(Deleted(w, refs), refs, gone, i + 1)
    ensures Deleted(w, refs).Active() == Remove(w.Active(), w.rest[0].uid)
    ensures Last(w.Active()) == Last(refs)
  {
    var w' := Deleted(w, refs);
    RemoveMiddle(w.front, w.rest);
    if |w.rest| == 1 {
      assert w.front == Walked(refs, gone);
      LacksUid(w.front, w.rest[0].uid);
    } else {
      assert w'.front + w'.rest == w.front + w.rest[1..];
      assert w'.front + Walked(w'.rest, gone) == w.front + Walked(w.rest, gone);
    }
  }

  lemma RemoveMiddle(front: seq<Ref>, rest: seq<Ref>)
    requires rest != [] && DistinctUids(front + rest)
    ensures Remove(front + rest, rest[0].uid) == front + rest[1..]
    ensures DistinctUids(front + rest[1..]) && rest[0].uid !in Uids(front + rest[1..])
  {
    var all, left, n := front + rest, front + rest[1..], |front|;
    assert all[n] == rest[0] && all[..n] == front && all[n + 1..] == rest[1..];
    assert forall k :: 0 <= k < n ==> all[k] == front[k];
    RemoveFirst(all, rest[0].uid, n);
    forall i, j | 0 <= i < j < |left| ensures left[i].uid != left[j].uid {
      assert left[i] == all[Behind(n, i)] && left[j] == all[Behind(n, j)];
    }
    forall i | 0 <= i < |left| ensures left[i].uid != rest[0].uid {
      assert left[i] == all[Behind(n, i)];
    }
  }

  /** Where the entry stood that is at place `k` once place `n` is taken out. */
  function Behind(n: nat, k: nat): nat {
    if k < n then k else k + 1
  }

  lemma WalkEnds(w: Walk, refs: seq<Ref>, gone: set<int>)
    requires refs != [] && Walking(w, refs, gone, |refs|)
    ensures w.Active() == Swept(refs, gone)
  {
    if !w.over {
      assert w.Active() == w.front;
    }
  }

  /** The loops. */

  lemma MissingMeaning(refs: seq<Ref>, r: Ref, known: set<int>, lookup: Ref -> Lookup)
    requires DistinctUids(refs) && r in refs
    ensures r.uid in Missing(refs, known, lookup) <==> IsMissing(r, known, lookup)
  {
  }

  predicate IsMissing(r: Ref, known: set<int>, lookup: Ref -> Lookup) {
    r.uid !in known && lookup(r) == NotFound
  }

  function Missing(refs: seq<Ref>, known: set<int>, lookup: Ref -> Lookup): set<int> {
    set r | r in refs && IsMissing(r, known, lookup) :: r.uid
  }

  /** The walk `w` on the array of `cron`: beyond the list every place holds a copy of the last entry. */
  ghost predicate WalkingAt(cron: Cron, w: Walk, refs: seq<Ref>, gone: set<int>, i: nat)
    reads cron, cron.buf
  {
    && cron.Valid() && |refs| <= cron.buf.Length && cron.Active() == w.Active()
    && (refs == [] ==> cron.len == 0)
    && (refs != [] ==>
          && Walking(w, refs, gone, i)
          && forall k :: cron.len <= k < |refs| ==> cron.buf[k] == Last(refs))
  }

  lemma WalkBegins(cron: Cron, refs: seq<Ref>, gone: set<int>) returns (w: Walk)
    requires cron.Valid() && refs == cron.Active() && DistinctUids(refs)
    ensures WalkingAt(cron, w, refs, gone, 0)
  {
    w := Walk([], refs, false);
    assert w.Active() == refs;
  }

  lemma WalkIsOver(cron: Cron, w: Walk, refs: seq<Ref>, gone: set<int>)
    requires WalkingAt(cron, w, refs, gone, |refs|)
    ensures cron.Active() == Swept(refs, gone)
  {
    if refs != [] {
      WalkEnds(w, refs, gone);
    }
  }

  lemma ReadAt(cron: Cron, w: Walk, refs: seq<Ref>, gone: set<int>, i: nat)
    requires WalkingAt(cron, w, refs, gone, i) && i < |refs|
    ensures cron.buf[i] == Read(w, refs) && cron.buf[i] in refs
  {
    if w.rest != [] {
      assert cron.Active()[i] == w.Active()[i] == w.rest[0];
    }
  }

  lemma PassAt(cron: Cron, w: Walk, refs: seq<Ref>, gone: set<int>, i: nat) returns (w': Walk)
    requires WalkingAt(cron, w, refs, gone, i) && i < |refs| && cron.buf[i].uid !in gone
    ensures WalkingAt(cron, w', refs, gone, i + 1)
  {
    ReadAt(cron, w, refs, gone, i);
    PassedKeeps(w, refs, gone, i);
    w' := Passed(w);
  }

  method DeleteAt(cron: Cron, uid: int, ghost w: Walk, ghost refs: seq<Ref>, ghost gone: set<int>, ghost i: nat)
    returns (ghost w': Walk)
    requires DistinctUids(refs) && WalkingAt(cron, w, refs, gone, i) && i < |refs|
    requires cron.buf[i].uid == uid && uid in gone
    modifies cron`len, cron.buf
    ensures WalkingAt(cron, w', refs, gone, i + 1)
  {
    ReadAt(cron, w, refs, gone, i);
    DeletedKeeps(w, refs, gone, i);
    w' := Deleted(w, refs);
    ghost var active := cron.Active();
    RemoveShortens(active, uid);
    cron.DeleteFromActiveList(uid);
    forall k | cron.len <= k < |refs| ensures cron.buf[k] == Last(refs) {
      assert k < |active| ==> old(cron.buf[k]) == active[k] == Last(active);
    }
  }

  lemma {:induction false} RemoveShortens(refs: seq<Ref>, uid: int)
    ensures |refs| - 1 <= |Remove(refs, uid)| <= |refs|
  {
    if refs != [] {
      RemoveShortens(refs[1..], uid);
    }
  }

  /** The second loop of the trim: what is not among the listed workloads is looked up, and dropped if not found. */
  method RemoveMissing(cron: Cron, knownActive: set<int>, lookup: Ref -> Lookup) returns (err: bool)
    requires cron.Valid() && DistinctUids(cron.Active())
    modifies cron`len, cron.buf
    ensures cron.Valid()
    ensures !err ==> cron.Active() == Swept(old(cron.Active()), Missing(old(cron.Active()), knownActive, lookup))
    ensures err ==> exists r :: r in old(cron.Active()) && r.uid !in knownActive && lookup(r) == LookupError
    ensures (forall r :: r in old(cron.Active()) && r.uid !in knownActive ==> lookup(r) != NotFound) ==>
              (err <==> exists r :: r in old(cron.Active()) && r.uid !in knownActive && lookup(r) == LookupError)
  {
    ghost var refs := cron.Active();
    ghost var gone := Missing(refs, knownActive, lookup);
    ghost var w := WalkBegins(cron, refs, gone);
    for i := 0 to cron.len
      invariant WalkingAt(cron, w, refs, gone, i)
      invariant gone == {} ==> cron.Active() == refs
      invariant gone == {} ==> forall k :: 0 <= k < i ==> refs[k].uid in knownActive || lookup(refs[k]) != LookupError
    {
      var ac := cron.buf[i];
      ReadAt(cron, w, refs, gone, i);
      MissingMeaning(refs, ac, knownActive, lookup);
      if ac.uid !in knownActive && lookup(ac) == NotFound {
        w := DeleteAt(cron, ac.uid, w, refs, gone, i);
      } else if ac.uid !in knownActive && lookup(ac) == LookupError {
        return true;
      } else {
        w := PassAt(cron, w, refs, gone, i);
      }
    }
    WalkIsOver(cron, w, refs, gone);
    return false;
  }

  /** The Replace policy: deleteWorkload drops each entry it looks at, unless the API server answers with an error. */
  method DropActive(cron: Cron, lookup: Ref -> Lookup) returns (err: bool)
    requires cron.Valid() && DistinctUids(cron.Active())
    modifies cron`len, cron.buf
    ensures cron.Valid()
    ensures !err ==> cron.Active() == Swept(old(cron.Active()), Uids(old(cron.Active())))
    ensures err ==> exists r :: r in old(cron.Active()) && (lookup(r) == UnsupportedKind || lookup(r) == LookupError)
    ensures old(cron.Active()) != [] && lookup(old(cron.Active())[0]) in {UnsupportedKind, LookupError} ==> err
  {
    ghost var refs := cron.Active();
    ghost var gone := Uids(refs);
    ghost var w := WalkBegins(cron, refs, gone);
    for i := 0 to cron.len
      invariant WalkingAt(cron, w, refs, gone, i)
      invariant i == 0 ==> cron.Active() == refs
      invariant i > 0 ==> lookup(refs[0]) != UnsupportedKind && lookup(refs[0]) != LookupError
    {
      var active := cron.buf[i];
      ReadAt(cron, w, refs, gone, i);
      if lookup(active) == UnsupportedKind || lookup(active) == LookupError {
        return true;
      }
      w := DeleteAt(cron, active.uid, w, refs, gone, i);
    }
    WalkIsOver(cron, w, refs, gone);
    return false;
  }

  /** What a sweep means for the entries. */

  lemma {:induction false} WithoutShape(refs: seq<Ref>, gone: set<int>)
    requires DistinctUids(refs)
    ensures DistinctUids(Without(refs, gone)) && Uids(Without(refs, gone)) == Uids(refs) - gone
  {
    if refs != [] {
      DropUids(refs, 1);
      WithoutShape(refs[1..], gone);
      Prepend(refs[0], refs[1..]);
      assert [refs[0]] + refs[1..] == refs;
      if refs[0].uid !in gone {
        Prepend(refs[0], Without(refs[1..], gone));
      }
    }
  }

  lemma {:induction false} WithoutAgree(refs: seq<Ref>, gone: set<int>, gone': set<int>)
    requires forall u :: u in Uids(refs) ==> (u in gone <==> u in gone')
    ensures Without(refs, gone) == Without(refs, gone')
  {
    if refs != [] {
      assert refs[0] in refs && forall r :: r in refs[1..] ==> r in refs;
      WithoutAgree(refs[1..], gone, gone');
    }
  }

  lemma {:induction false} WithoutNothing(refs: seq<Ref>)
    ensures Without(refs, {}) == refs
  {
    if refs != [] {
      WithoutNothing(refs[1..]);
    }
  }

  /** Deleting one more entry. */
  lemma {:induction false} RemoveWithout(refs: seq<Ref>, gone: set<int>, uid: int)
    requires DistinctUids(refs)
    ensures Remove(Without(refs, gone), uid) == Without(refs, gone + {uid})
  {
    WithoutShape(refs, gone);
    if refs != [] {
      DropUids(refs, 1);
      RemoveWithout(refs[1..], gone, uid);
      WithoutShape(refs[1..], gone);
      var rest := Without(refs[1..], gone);
      if refs[0].uid !in gone {
        RemoveFront(refs[0], rest, uid);
        if refs[0].uid == uid {
          LacksUid(rest, refs[0].uid);
        }
      }
    }
  }

  lemma RemoveFront(r: Ref, rest: seq<Ref>, uid: int)
    ensures Remove([r] + rest, uid) == if r.uid == uid then rest else [r] + Remove(rest, uid)
  {
    assert ([r] + rest)[1..] == rest;
  }

  lemma {:induction false} WalkedIsWithout(refs: seq<Ref>, gone: set<int>)
    requires DistinctUids(refs)
    ensures Walked(refs, gone) == Without(refs, gone - Uids(Walked(refs, gone)))
  {
    WalkedShape(refs, gone);
    if refs != [] {
      var k := if refs[0].uid in gone then 2 else 1;
      if k <= |refs| {
        var rest, walked := refs[k..], Walked(refs[k..], gone);
        WalkedIsWithout(rest, gone);
        WalkedShape(rest, gone);
        DropUids(refs, k);
        DropUids(refs, 1);
        Prepend(refs[k - 1], walked);
        WithoutAgree(rest, gone - Uids(walked), gone - Uids(Walked(refs, gone)));
        assert k == 2 ==> refs[1..][1..] == rest && refs[0].uid !in Uids(rest) && refs[0].uid != refs[1].uid;
      }
    }
  }

  /** Only missing entries are dropped, and all other entries stay in order. */
  lemma SweptIsWithout(refs: seq<Ref>, gone: set<int>)
    requires DistinctUids(refs)
    ensures Swept(refs, gone) == Without(refs, gone - Uids(Swept(refs, gone)))
  {
    var walked := Walked(refs, gone);
    WalkedIsWithout(refs, gone);
    WalkedShape(refs, gone);
    if |walked| < |refs| && refs[|refs| - 1].uid in gone {
      var dropped, last := gone - Uids(walked), refs[|refs| - 1].uid;
      RemoveWithout(refs, dropped, last);
      WithoutShape(refs, dropped + {last});
      WithoutShape(refs, dropped);
      WithoutAgree(refs, dropped + {last}, gone - Uids(Swept(refs, gone)));
    }
  }

  lemma {:induction false} WithoutTwice(refs: seq<Ref>, gone: set<int>, more: set<int>)
    ensures Without(Without(refs, gone), more) == Without(refs, gone + more)
  {
    if refs != [] {
      WithoutTwice(refs[1..], gone, more);
    }
  }

  /** So a whole trim takes nothing from the list but finished and missing entries. */
  lemma TrimDrops(refs: seq<Ref>, finished: set<int>, gone: set<int>) returns (dropped: set<int>)
    requires DistinctUids(refs)
    ensures dropped <= finished + gone
    ensures Swept(Without(refs, finished), gone) == Without(refs, dropped)
  {
    var unfinished := Without(refs, finished);
    WithoutShape(refs, finished);
    SweptIsWithout(unfinished, gone);
    var missing := gone - Uids(Swept(unfinished, gone));
    WithoutTwice(refs, finished, missing);
    dropped := finished + missing;
  }

  lemma {:induction false} CountWithout(refs: seq<Ref>, gone: set<int>, dropped: set<int>)
    ensures Count(Without(refs, dropped), gone) <= Count(refs, gone)
  {
    if refs != [] {
      CountWithout(refs[1..], gone, dropped);
    }
  }

  lemma {:induction false} WalkHalves(refs: seq<Ref>, gone: set<int>)
    ensures 2 * Count(Walked(refs, gone), gone) <= Count(refs, gone)
  {
    if refs != [] {
      var k := if refs[0].uid in gone then 2 else 1;
      if k <= |refs| {
        WalkHalves(refs[k..], gone);
        assert k == 2 ==> refs[1..][0] == refs[1] && refs[1..][1..] == refs[2..];
      }
    }
  }

  /** A sweep leaves at most half of the missing entries, so at least one goes if there is any. */
  lemma SweepHalves(refs: seq<Ref>, gone: set<int>)
    requires DistinctUids(refs)
    ensures 2 * Count(Swept(refs, gone), gone) <= Count(refs, gone)
  {
    WalkHalves(refs, gone);
    WalkedShape(refs, gone);
    if |Walked(refs, gone)| < |refs| {
      var walked := Walked(refs, gone);
      WithoutNothing(walked);
      RemoveWithout(walked, {}, refs[|refs| - 1].uid);
      CountWithout(walked, gone, {} + {refs[|refs| - 1].uid});
    }
  }

  /** The first missing entry always goes. */
  lemma FirstMissingGoes(refs: seq<Ref>, gone: set<int>, p: nat)
    requires DistinctUids(refs) && p < |refs| && refs[p].uid in gone
    requires forall k :: 0 <= k < p ==> refs[k].uid !in gone
    ensures refs[p].uid !in Uids(Swept(refs, gone))
  {
    FirstIsWalkedOver(refs, gone, p);
    var walked := Walked(refs, gone);
    WalkedShape(refs, gone);
    WithoutNothing(walked);
    RemoveWithout(walked, {}, refs[|refs| - 1].uid);
    WithoutShape(walked, {} + {refs[|refs| - 1].uid});
  }

  lemma {:induction false} FirstIsWalkedOver(refs: seq<Ref>, gone: set<int>, p: nat)
    requires DistinctUids(refs) && p < |refs| && refs[p].uid in gone
    requires forall k :: 0 <= k < p ==> refs[k].uid !in gone
    ensures refs[p].uid !in Uids(Walked(refs, gone))
  {
    DropUids(refs, 1);
    if p > 0 {
      FirstIsWalkedOver(refs[1..], gone, p - 1);
      WalkedShape(refs[1..], gone);
      Prepend(refs[0], Walked(refs[1..], gone));
    } else if |refs| > 1 {
      DropUids(refs, 2);
      WalkedShape(refs[2..], gone);
      Prepend(refs[1], Walked(refs[2..], gone));
    }
  }

  lemma {:induction false} WalkOverAll(refs: seq<Ref>, gone: set<int>)
    requires DistinctUids(refs) && Uids(refs) <= gone
    ensures |Walked(refs, gone)| == |refs| / 2
    ensures refs != [] ==> (refs[|refs| - 1].uid in Uids(Walked(refs, gone)) <==> |refs| % 2 == 0)
  {
    if refs != [] {
      DropUids(refs, 1);
      if |refs| > 1 {
        DropUids(refs, 2);
        WalkOverAll(refs[2..], gone);
        WalkedShape(refs[2..], gone);
        Prepend(refs[1], Walked(refs[2..], gone));
        assert |refs| > 2 ==> refs[2..][|refs| - 3] == refs[|refs| - 1];
        assert refs[|refs| - 1] in refs;
      }
    }
  }

  /** The Replace loop: of n entries (n - 1) / 2 survive, so it empties the list exactly if there are at most two. */
  lemma ReplaceLeaves(refs: seq<Ref>)
    requires DistinctUids(refs)
    ensures |Swept(refs, Uids(refs))| == if refs == [] then 0 else (|refs| - 1) / 2
    ensures Swept(refs, Uids(refs)) == [] <==> |refs| <= 2
  {
    if refs != [] {
      WalkOverAll(refs, Uids(refs));
      WalkedShape(refs, Uids(refs));
      RemoveLast(Walked(refs, Uids(refs)), refs[|refs| - 1]);
      assert refs[|refs| - 1] in refs;
    }
  }

  lemma {:induction false} WalkedAgree(refs: seq<Ref>, gone: set<int>, gone': set<int>)
    requires forall u :: u in Uids(refs) ==> (u in gone <==> u in gone')
    ensures Walked(refs, gone) == Walked(refs, gone')
  {
    if refs != [] {
      assert refs[0] in refs;
      var k := if refs[0].uid in gone then 2 else 1;
      if k <= |refs| {
        assert forall r :: r in refs[k..] ==> r in refs;
        WalkedAgree(refs[k..], gone, gone');
      }
    }
  }

  /** What is not in the list does not matter for its sweep. */
  lemma SweptAgree(refs: seq<Ref>, gone: set<int>, gone': set<int>)
    requires forall u :: u in Uids(refs) ==> (u in gone <==> u in gone')
    ensures Swept(refs, gone) == Swept(refs, gone')
  {
    WalkedAgree(refs, gone, gone');
    if refs != [] {
      assert refs[|refs| - 1] in refs;
    }
  }

  lemma HalfAgain(p: nat, c: nat, d: nat)
    requires 2 * c <= d
    ensures 2 * p * c <= p * d
  {
    assert p * (d - 2 * c) >= 0;
  }

  /** The whole trim. */

  function FinishedUids(ws: seq<Workload>): set<int> {
    if ws == [] then {}
    else
      var last := ws[|ws| - 1];
      FinishedUids(ws[..|ws| - 1]) + if last.finished then {last.uid} else {}
  }

  function KnownUids(ws: seq<Workload>): set<int> {
    if ws == [] then {} else KnownUids(ws[..|ws| - 1]) + {ws[|ws| - 1].uid}
  }

  /** What the first loop of a trim leaves for the second, and what the second finds missing. */

  function Unfinished(refs: seq<Ref>, ws: seq<Workload>): seq<Ref> {
    Without(refs, FinishedUids(ws))
  }

  function MissingOf(refs: seq<Ref>, ws: seq<Workload>, lookup: Ref -> Lookup): set<int> {
    Missing(Unfinished(refs, ws), KnownUids(ws), lookup)
  }

  /** The list after a whole trim without a detour. */
  function Trimmed(refs: seq<Ref>, ws: seq<Workload>, lookup: Ref -> Lookup): seq<Ref> {
    Swept(Unfinished(refs, ws), MissingOf(refs, ws, lookup))
  }

  lemma {:induction false} WorkloadUids(ws: seq<Workload>)
    ensures forall u :: u in KnownUids(ws) <==> exists i :: 0 <= i < |ws| && ws[i].uid == u
    ensures forall u :: u in FinishedUids(ws) <==> exists i :: 0 <= i < |ws| && ws[i].uid == u && ws[i].finished
  {
    if ws != [] {
      var front, last := ws[..|ws| - 1], ws[|ws| - 1];
      WorkloadUids(front);
      assert ws == front + [last];
      forall u ensures u in KnownUids(ws) <==> exists i :: 0 <= i < |ws| && ws[i].uid == u {
        if i :| 0 <= i < |front| && front[i].uid == u {
          assert ws[i] == front[i];
        }
        assert ws[|front|].uid == last.uid;
      }
      forall u ensures u in FinishedUids(ws) <==> exists i :: 0 <= i < |ws| && ws[i].uid == u && ws[i].finished {
        if i :| 0 <= i < |front| && front[i].uid == u && front[i].finished {
          assert ws[i] == front[i];
        }
        assert ws[|front|].uid == last.uid && ws[|front|].finished == last.finished;
      }
    }
  }

  /**
   On workloads: the entry of a finished workload always leaves; one that is listed and not finished always stays; and
   one that is not listed stays unless the API server does not find it.
   */
  lemma TrimOnWorkloads(refs: seq<Ref>, ws: seq<Workload>, lookup: Ref -> Lookup, r: Ref)
    requires DistinctUids(refs) && r in refs
    ensures (exists i :: 0 <= i < |ws| && ws[i].uid == r.uid && ws[i].finished) ==> r !in Trimmed(refs, ws, lookup)
    ensures (forall i :: 0 <= i < |ws| && ws[i].uid == r.uid ==> !ws[i].finished)
            && ((exists i :: 0 <= i < |ws| && ws[i].uid == r.uid) || lookup(r) != NotFound) ==>
              r in Trimmed(refs, ws, lookup)
  {
    WorkloadUids(ws);
    var unfinished, gone := Unfinished(refs, ws), MissingOf(refs, ws, lookup);
    WithoutShape(refs, FinishedUids(ws));
    WithoutMembers(refs, FinishedUids(ws), r);
    SweptIsWithout(unfinished, gone);
    var dropped := gone - Uids(Swept(unfinished, gone));
    WithoutShape(unfinished, dropped);
    WithoutMembers(unfinished, dropped, r);
    if r in unfinished {
      MissingMeaning(unfinished, r, KnownUids(ws), lookup);
    }
  }

  lemma {:induction false} WithoutMembers(refs: seq<Ref>, removed: set<int>, r: Ref)
    ensures r in Without(refs, removed) <==> r in refs && r.uid !in removed
  {
    if refs != [] {
      WithoutMembers(refs[1..], removed, r);
    }
  }

  lemma {:induction false} CountConcat(a: seq<Ref>, b: seq<Ref>, gone: set<int>)
    ensures Count(a + b, gone) == Count(a, gone) + Count(b, gone)
  {
    if a == [] {
      assert a + b == b;
    } else {
      CountConcat(a[1..], b, gone);
      assert (a + b)[1..] == a[1..] + b;
    }
  }

  lemma {:induction false} CountNone(refs: seq<Ref>, gone: set<int>)
    requires Uids(refs) !! gone
    ensures Count(refs, gone) == 0
  {
    if refs != [] {
      assert refs[0] in refs && forall r :: r in refs[1..] ==> r in refs;
      CountNone(refs[1..], gone);
    }
  }

  /** The trim finds missing exactly those of `gone` that it has not taken as finished. */
  ghost predicate MissingIs(refs: seq<Ref>, ws: seq<Workload>, lookup: Ref -> Lookup, gone: set<int>) {
    MissingOf(refs, ws, lookup) == gone * Uids(Unfinished(refs, ws))
  }

  /** One trim leaves at most half of the entries it finds missing, whatever is appended after it. */
  lemma TrimHalves(refs: seq<Ref>, ws: seq<Workload>, lookup: Ref -> Lookup, gone: set<int>, added: seq<Ref>)
    requires DistinctUids(refs) && MissingIs(refs, ws, lookup, gone) && Uids(added) !! gone
    ensures 2 * Count(Trimmed(refs, ws, lookup) + added, gone) <= Count(refs, gone)
  {
    var unfinished := Unfinished(refs, ws);
    WithoutShape(refs, FinishedUids(ws));
    SweptAgree(unfinished, MissingOf(refs, ws, lookup), gone);
    SweepHalves(unfinished, gone);
    CountWithout(refs, gone, FinishedUids(ws));
    CountConcat(Trimmed(refs, ws, lookup), added, gone);
    CountNone(added, gone);
  }

  /**
   Trims of the lists of successive passes. As long as the entries in `gone` are what is missing, whichever workloads
   finish and are added meanwhile, at most a 2^k-th part of them is left after k trims.
   */
  lemma {:induction false} TrimsEmptyMissing(lists: seq<seq<Ref>>, ws: seq<seq<Workload>>, lookups: seq<Ref -> Lookup>,
                                             added: seq<seq<Ref>>, gone: set<int>)
    requires |lists| == |ws| + 1 && |ws| == |lookups| == |added|
    requires forall i :: 0 <= i < |lists| ==> DistinctUids(lists[i])
    requires forall i :: 0 <= i < |ws| ==>
               && MissingIs(lists[i], ws[i], lookups[i], gone) && Uids(added[i]) !! gone
               && lists[i + 1] == Trimmed(lists[i], ws[i], lookups[i]) + added[i]
    ensures Pow2(|ws|) * Count(lists[|ws|], gone) <= Count(lists[0], gone)
  {
    var n := |ws|;
    if n > 0 {
      TrimsEmptyMissing(lists[..n], ws[..n - 1], lookups[..n - 1], added[..n - 1], gone);
      var last := lists[n - 1];
      assert lists[n - 1 + 1] == Trimmed(last, ws[n - 1], lookups[n - 1]) + added[n - 1];
      TrimHalves(last, ws[n - 1], lookups[n - 1], gone, added[n - 1]);
      HalfAgain(Pow2(n - 1), Count(lists[n], gone), Count(last, gone));
    }
  }

  lemma RemoveKeepsDistinct(refs: seq<Ref>, uid: int)
    requires DistinctUids(refs)
    ensures DistinctUids(Remove(refs, uid))
    ensures uid !in Uids(refs) ==> Remove(refs, uid) == refs
  {
    WithoutNothing(refs);
    RemoveWithout(refs, {}, uid);
    WithoutShape(refs, {} + {uid});
  }

  /** One workload of the first loop; `next` is the object to go on with. */
  method CheckWorkload(c: Cron, workload: Workload, latest: Option<seq<Ref>>) returns (err: bool, next: Cron)
    requires c.Valid() && DistinctUids(c.Active()) && (latest.Some? ==> DistinctUids(latest.value))
    modifies c`len, c.buf
    ensures c.Valid() && next.Valid() && DistinctUids(next.Active())
    ensures next == c || (fresh(next) && fresh(next.buf))
    ensures next != c <==> !workload.finished && workload.uid !in Uids(old(c.Active()))
                           && latest.Some? && workload.uid in Uids(latest.value)
    ensures next != c ==> next.Active() == latest.value
    ensures c.Active() == if workload.finished then Remove(old(c.Active()), workload.uid) else old(c.Active())
    ensures err <==> !workload.finished && workload.uid !in Uids(old(c.Active())) && latest == None
  {
    RemoveKeepsDistinct(c.Active(), workload.uid);
    var found := c.InActiveList(workload.uid);
    if !found && !workload.finished {
      if latest == None {
        return true, c;
      }
      var latestCron := new Cron(latest.value);
      var known := latestCron.InActiveList(workload.uid);
      if known {
        return false, latestCron;
      }
    } else if found && workload.finished {
      c.DeleteFromActiveList(workload.uid);
    }
    return false, c;
  }

  /**
   The i-th workload lets the loop go on with the same object: it is finished, or has an entry left, or the list that
   is read again on its account has none for it either.
   */
  ghost predicate Passes(before: seq<Ref>, workloads: seq<Workload>, latest: seq<Option<seq<Ref>>>, i: nat)
    requires i < |workloads| && |latest| == |workloads|
  {
    || workloads[i].finished
    || workloads[i].uid in Uids(Without(before, FinishedUids(workloads[..i])))
    || (latest[i].Some? && workloads[i].uid !in Uids(latest[i].value))
  }

  /**
   The first loop. An unfinished workload that the list lacks makes the code read the cron again (`latest`, or
   an error), and if the list read now has the workload, the code goes on with that fresh object `c`: from
   there on the caller's `cron` no longer changes. `upto` is how many workloads had been handled before that.
   */
  method RemoveFinished(cron: Cron, workloads: seq<Workload>, latest: seq<Option<seq<Ref>>>)
    returns (err: bool, c: Cron, knownActive: set<int>, ghost upto: nat)
    requires cron.Valid() && DistinctUids(cron.Active()) && |latest| == |workloads|
    requires forall i :: 0 <= i < |latest| && latest[i].Some? ==> DistinctUids(latest[i].value)
    modifies cron`len, cron.buf
    ensures cron.Valid() && c.Valid() && DistinctUids(c.Active())
    ensures c == cron || (fresh(c) && fresh(c.buf))
    ensures upto <= |workloads| && (upto == |workloads| ==> c == cron && !err) && (c == cron && !err ==> upto == |workloads|)
    ensures cron.Active() == Without(old(cron.Active()), FinishedUids(workloads[..upto]))
    ensures !err ==> knownActive == KnownUids(workloads)
    ensures forall i :: 0 <= i < upto ==> Passes(old(cron.Active()), workloads, latest, i)
    ensures upto < |workloads| ==>
              !Passes(old(cron.Active()), workloads, latest, upto) && (latest[upto].Some? <==> c != cron)
  {
    ghost var before := cron.Active();
    WithoutNothing(before);
    assert workloads[..0] == [];
    c, knownActive, upto, err := cron, {}, 0, false;
    for i := 0 to |workloads|
      invariant cron.Valid() && c.Valid() && DistinctUids(c.Active())
      invariant c == cron || (fresh(c) && fresh(c.buf))
      invariant Trimming(cron, c, before, workloads, i, upto)
      invariant forall k :: 0 <= k < upto ==> Passes(before, workloads, latest, k)
      invariant c != cron ==> upto < i && !Passes(before, workloads, latest, upto) && latest[upto].Some?
      invariant knownActive == KnownUids(workloads[..i])
    {
      assert workloads[..i + 1][..i] == workloads[..i];
      knownActive := knownActive + {workloads[i].uid};
      err, c, upto := HandleWorkload(cron, c, workloads, i, latest, before, upto);
      if err {
        return;
      }
    }
    assert workloads[..|workloads|] == workloads;
  }

  /** As long as the code works on `cron` itself, the workloads below `i` are handled; later the list stays as it is. */
  ghost predicate Trimming(cron: Cron, c: Cron, before: seq<Ref>, workloads: seq<Workload>, i: nat, upto: nat)
    reads cron, cron.buf
  {
    && cron.Valid() && upto <= i <= |workloads| && (c == cron ==> upto == i)
    && cron.Active() == Without(before, FinishedUids(workloads[..upto]))
  }

  /** One round of the loop. */
  method HandleWorkload(cron: Cron, c: Cron, workloads: seq<Workload>, i: nat,
                        latest: seq<Option<seq<Ref>>>, ghost before: seq<Ref>, ghost upto: nat)
    returns (err: bool, next: Cron, ghost upto': nat)
    requires cron.Valid() && c.Valid() && DistinctUids(c.Active()) && (c == cron || c.buf != cron.buf)
    requires DistinctUids(before) && i < |workloads| == |latest| && (latest[i].Some? ==> DistinctUids(latest[i].value))
    requires Trimming(cron, c, before, workloads, i, upto)
    modifies c`len, c.buf
    ensures cron.Valid() && next.Valid() && DistinctUids(next.Active())
    ensures next == c || (fresh(next) && fresh(next.buf))
    ensures err ==> next == c
    ensures upto' == if !err && next == cron then i + 1 else upto
    ensures c == cron ==> (Passes(before, workloads, latest, i) <==> !err && next == c)
    ensures c == cron && !(!err && next == c) ==> (latest[i].Some? <==> next != c)
    ensures Trimming(cron, next, before, workloads, if err then i else i + 1, upto')
  {
    FinishedStep(before, workloads, i, workloads[i]);
    upto' := upto;
    err, next := CheckWorkload(c, workloads[i], latest[i]);
    if !err && next == cron {
      upto' := i + 1;
    }
  }

  lemma FinishedStep(before: seq<Ref>, ws: seq<Workload>, i: nat, w: Workload)
    requires DistinctUids(before) && i < |ws| && ws[i] == w
    ensures var list, list' := Without(before, FinishedUids(ws[..i])), Without(before, FinishedUids(ws[..i + 1]));
      list' == if w.finished then Remove(list, w.uid) else list
    ensures w.uid !in Uids(Without(before, FinishedUids(ws[..i]))) ==>
      Without(before, FinishedUids(ws[..i + 1])) == Without(before, FinishedUids(ws[..i]))
  {
    var gone := FinishedUids(ws[..i]);
    assert ws[..i + 1][..i] == ws[..i];
    RemoveWithout(before, gone, w.uid);
    var list := Without(before, gone);
    if w.uid !in Uids(list) {
      LacksUid(list, w.uid);
    }
    assert gone + {} == gone;
  }

  /**
   trimFinishedWorkloadsFromActiveList. Without a detour to a fresh object, all finished workloads leave the
   list and the rest is swept for missing ones.
   */
  method TrimFinishedWorkloadsFromActiveList(cron: Cron, workloads: seq<Workload>, latest: seq<Option<seq<Ref>>>,
                                             lookup: Ref -> Lookup)
    returns (err: bool, rebound: bool, ghost upto: nat)
    requires cron.Valid() && DistinctUids(cron.Active()) && |latest| == |workloads|
    requires forall i :: 0 <= i < |latest| && latest[i].Some? ==> DistinctUids(latest[i].value)
    modifies cron`len, cron.buf
    ensures cron.Valid() && upto <= |workloads|
    ensures rebound ==> cron.Active() == Without(old(cron.Active()), FinishedUids(workloads[..upto]))
    ensures !err && !rebound ==> cron.Active() == Trimmed(old(cron.Active()), workloads, lookup)
    ensures forall i :: 0 <= i < upto ==> Passes(old(cron.Active()), workloads, latest, i)
    ensures if upto == |workloads| then !rebound
            else !Passes(old(cron.Active()), workloads, latest, upto) && (if rebound then latest[upto].Some? else err)
  {
    var c, knownActive;
    err, c, knownActive, upto := RemoveFinished(cron, workloads, latest);
    rebound := c != cron;
    if err {
      return;
    }
    assert !rebound ==> workloads[..upto] == workloads;
    err := RemoveMissing(c, knownActive, lookup);
  }
}
