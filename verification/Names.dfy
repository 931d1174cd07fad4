/**
 Object names (pkg/util/util.go, controllers/apps/cron_utils.go) and the key of a history entry.

 A pod or service is found by its name, and its type and index are read back from labels, so two objects
 of one namespace must never compete for a name. Whether they can is decided by the dashes.
 */
module Names {
  predicate IsDigit(c: char) {
    '0' <= c <= '9'
  }

  function DigitValue(c: char): nat
    requires IsDigit(c)
  {
    c as int - '0' as int
  }

  function Digits(n: nat): (s: string)
    ensures |s| >= 1 && forall i :: 0 <= i < |s| ==> IsDigit(s[i])
  {
    var last := ['0' + (n % 10) as char];
    if n < 10 then last else Digits(n / 10) + last
  }

  function Value(s: string): nat
    requires forall i :: 0 <= i < |s| ==> IsDigit(s[i])
  {
    if s == [] then 0 else Value(s[..|s| - 1]) * 10 + DigitValue(s[|s| - 1])
  }

  /** Reading a printed number gives the number back. */
  lemma {:induction false} ValueOfDigits(n: nat)
    ensures Value(Digits(n)) == n
  {
    if n >= 10 {
      ValueOfDigits(n / 10);
      assert Digits(n)[..|Digits(n)| - 1] == Digits(n / 10);
    } else {
      assert Digits(n)[..0] == [];
    }
  }

  function Itoa(n: int): string {
    if n < 0 then "-" + Digits(-n) else Digits(n)
  }

  lemma ItoaInjective(m: int, n: int)
    requires Itoa(m) == Itoa(n)
    ensures m == n
  {
    assert IsDigit(Digits(if m < 0 then -m else m)[0]) && IsDigit(Digits(if n < 0 then -n else n)[0]);
    if m < 0 {
      assert Itoa(m)[0] == '-';
      assert Digits(-m) == Itoa(m)[1..] == Itoa(n)[1..] == Digits(-n);
      ValueOfDigits(-m);
      ValueOfDigits(-n);
    } else {
      assert Itoa(n)[0] != '-';
      ValueOfDigits(m);
      ValueOfDigits(n);
    }
  }

  function Dashed(s: string): (r: string)
    ensures |r| == |s|
    ensures forall i :: 0 <= i < |s| ==> r[i] == if s[i] == '/' then '-' else s[i]
  {
    seq(|s|, i requires 0 <= i < |s| => if s[i] == '/' then '-' else s[i])
  }

  function GenGeneralName(jobName: string, rtype: string, index: string): string {
    Dashed(jobName + "-" + rtype + "-" + index)
  }

  predicate Plain(s: string) {
    '-' !in s && '/' !in s
  }

  lemma PlainIsKept(s: string)
    requires '/' !in s
    ensures Dashed(s) == s
  {
  }

  lemma SplitAtLastDash(a: string, b: string, a': string, b': string)
    requires a + "-" + b == a' + "-" + b'
    requires '-' !in b && '-' !in b'
    ensures a == a' && b == b'
  {
    var s, s' := a + "-" + b, a' + "-" + b';
    assert s[|a|] == '-' && s'[|a'|] == '-';
    assert forall k :: |a| < k < |s| ==> s[k] == b[k - |a| - 1] != '-';
    assert forall k :: |a'| < k < |s'| ==> s'[k] == b'[k - |a'| - 1] != '-';
    assert a == s[..|a|] == a';
    assert b == s[|a| + 1..] == b';
  }

  /**
   Types without dashes and numeric indices give each (job, type, index) its own name, and only up to the
   dashes that replace slashes can two jobs be confused.
   */
  lemma GeneralNameInjective(job: string, rtype: string, index: int, job': string, rtype': string, index': int)
    requires Plain(rtype) && Plain(rtype') && index >= 0 && index' >= 0
    ensures GenGeneralName(job, rtype, Itoa(index)) == GenGeneralName(job', rtype', Itoa(index'))
      <==> Dashed(job) == Dashed(job') && rtype == rtype' && index == index'
  {
    var i, i' := Itoa(index), Itoa(index');
    PlainIsKept(i);
    PlainIsKept(i');
    PlainIsKept(rtype);
    PlainIsKept(rtype');
    assert GenGeneralName(job, rtype, i) == Dashed(job) + "-" + rtype + "-" + i;
    assert GenGeneralName(job', rtype', i') == Dashed(job') + "-" + rtype' + "-" + i';
    if GenGeneralName(job, rtype, i) == GenGeneralName(job', rtype', i') {
      SplitAtLastDash(Dashed(job) + "-" + rtype, i, Dashed(job') + "-" + rtype', i');
      SplitAtLastDash(Dashed(job), rtype, Dashed(job'), rtype');
      ItoaInjective(index, index');
    }
  }

  predicate EndsWith(s: string, suffix: string) {
    |suffix| <= |s| && s[|s| - |suffix|..] == suffix
  }

  /** Objects of two types share a name. */
  ghost predicate SameName(job: string, rtype: string, index: nat, job': string, rtype': string, index': nat) {
    '/' !in job && '/' !in job'
    && GenGeneralName(job, rtype, Itoa(index)) == GenGeneralName(job', rtype', Itoa(index'))
  }

  lemma SharedStem(job: string, rtype: string, index: nat, job': string, rtype': string, index': nat)
    requires '/' !in rtype && '/' !in rtype' && SameName(job, rtype, index, job', rtype', index')
    ensures job + "-" + rtype == job' + "-" + rtype'
  {
    var i, i' := Itoa(index), Itoa(index');
    PlainIsKept(job + "-" + rtype + "-" + i);
    PlainIsKept(job' + "-" + rtype' + "-" + i');
    SplitAtLastDash(job + "-" + rtype, i, job' + "-" + rtype', i');
  }

  lemma LongerTypeEnds(job: string, rtype: string, job': string, rtype': string)
    requires job + "-" + rtype == job' + "-" + rtype' && |rtype| > |rtype'|
    ensures EndsWith(rtype, "-" + rtype')
  {
    var s := job + "-" + rtype;
    var n := |rtype'| + 1;
    assert s[|s| - n..] == "-" + rtype';
    assert s[|job| + 1..] == rtype;
    assert rtype[|rtype| - n..] == s[|job| + 1..][|rtype| - n..] == s[|s| - n..];
  }

  /** Two different types can compete for a name exactly if one of them is the other behind a dash. */
  lemma TypesCollideIff(rtype: string, rtype': string)
    requires '/' !in rtype && '/' !in rtype' && rtype != rtype'
    ensures (exists job, index, job', index' :: SameName(job, rtype, index, job', rtype', index')) <==>
              EndsWith(rtype, "-" + rtype') || EndsWith(rtype', "-" + rtype)
  {
    if job, index, job', index' :| SameName(job, rtype, index, job', rtype', index') {
      SharedStem(job, rtype, index, job', rtype', index');
      assert (job + "-" + rtype)[|job| + 1..] == rtype && (job' + "-" + rtype')[|job'| + 1..] == rtype';
      if |rtype| > |rtype'| {
        LongerTypeEnds(job, rtype, job', rtype');
      } else if |rtype| < |rtype'| {
        LongerTypeEnds(job', rtype', job, rtype);
      }
    }
    if EndsWith(rtype, "-" + rtype') {
      DashedTypeCollides(rtype, rtype');
      assert SameName("a", rtype, 0, "a-" + rtype[..|rtype| - |rtype'| - 1], rtype', 0);
    }
    if EndsWith(rtype', "-" + rtype) {
      DashedTypeCollides(rtype', rtype);
      assert SameName("a-" + rtype'[..|rtype'| - |rtype| - 1], rtype, 0, "a", rtype', 0);
    }
  }

  lemma DashedTypeCollides(rtype: string, rtype': string)
    requires '/' !in rtype && '/' !in rtype' && EndsWith(rtype, "-" + rtype')
    ensures SameName("a", rtype, 0, "a-" + rtype[..|rtype| - |rtype'| - 1], rtype', 0)
  {
    var front := rtype[..|rtype| - |rtype'| - 1];
    assert rtype == front + ("-" + rtype');
    assert "a" + "-" + rtype + "-" + Itoa(0) == "a-" + front + "-" + rtype' + "-" + Itoa(0);
  }

  /** An object of a job: its kind, the job's name, the lower-cased replica type, and the index. */
  datatype ObjectId = ObjectId(kind: string, job: string, rtype: string, index: nat)

  function ServiceName(o: ObjectId): string {
    GenGeneralName(o.job, o.rtype, Itoa(o.index))
  }

  /** The master of an ElasticDL job has a pod name of its own, without its index. */
  predicate ElasticDLMaster(o: ObjectId) {
    o.kind == "ElasticDLJob" && o.rtype == "master"
  }

  function PodName(o: ObjectId): string {
    if ElasticDLMaster(o) then "elasticdl-" + o.job + "-master" else GenGeneralName(o.job, o.rtype, Itoa(o.index))
  }

  predicate NoSlash(o: ObjectId) {
    '/' !in o.job && '/' !in o.rtype
  }

  /** The kind is no part of a name: two objects share it exactly if index and job with type agree. */
  lemma ServicesShareNameIff(o: ObjectId, o': ObjectId)
    requires NoSlash(o) && NoSlash(o')
    ensures ServiceName(o) == ServiceName(o') <==> o.index == o'.index && o.job + "-" + o.rtype == o'.job + "-" + o'.rtype
  {
    var i, i' := Itoa(o.index), Itoa(o'.index);
    PlainIsKept(o.job + "-" + o.rtype + "-" + i);
    PlainIsKept(o'.job + "-" + o'.rtype + "-" + i');
    if ServiceName(o) == ServiceName(o') {
      SplitAtLastDash(o.job + "-" + o.rtype, i, o'.job + "-" + o'.rtype, i');
      ItoaInjective(o.index, o'.index);
    }
  }

  lemma PodsShareNameIff(o: ObjectId, o': ObjectId)
    requires NoSlash(o) && NoSlash(o')
    ensures PodName(o) == PodName(o') <==>
              if ElasticDLMaster(o) || ElasticDLMaster(o')
              then ElasticDLMaster(o) && ElasticDLMaster(o') && o.job == o'.job
              else o.index == o'.index && o.job + "-" + o.rtype == o'.job + "-" + o'.rtype
  {
    ServicesShareNameIff(o, o');
    EndsInDigit(o);
    EndsInDigit(o');
    if ElasticDLMaster(o) && ElasticDLMaster(o') && PodName(o) == PodName(o') {
      MiddleIsSame("elasticdl-", o.job, o'.job, "-master");
    } else if ElasticDLMaster(o) {
      assert PodName(o)[|PodName(o)| - 1] == 'r';
    } else if ElasticDLMaster(o') {
      assert PodName(o')[|PodName(o')| - 1] == 'r';
    }
  }

  lemma EndsInDigit(o: ObjectId)
    ensures var name := ServiceName(o); name != [] && IsDigit(name[|name| - 1])
  {
    var name, i := ServiceName(o), Itoa(o.index);
    assert (o.job + "-" + o.rtype + "-" + i)[|name| - 1] == i[|i| - 1];
  }

  lemma MiddleIsSame(front: string, a: string, b: string, back: string)
    requires front + a + back == front + b + back
    ensures a == b
  {
    assert a == (front + a + back)[|front|..|front| + |a|];
    assert b == (front + b + back)[|front|..|front| + |b|];
  }

  /** The type of `o` is that of `o'` behind a dash, and the job name of `o'` makes up for it. */
  predicate Behind(o: ObjectId, o': ObjectId) {
    EndsWith(o.rtype, "-" + o'.rtype) && o'.job == o.job + "-" + o.rtype[..|o.rtype| - |o'.rtype| - 1]
  }

  lemma BehindIff(o: ObjectId, o': ObjectId)
    ensures o.job + "-" + o.rtype == o'.job + "-" + o'.rtype && |o.rtype| > |o'.rtype| <==> Behind(o, o')
  {
    var n := |o.rtype| - |o'.rtype| - 1;
    if o.job + "-" + o.rtype == o'.job + "-" + o'.rtype && |o.rtype| > |o'.rtype| {
      LongerTypeEnds(o.job, o.rtype, o'.job, o'.rtype);
      assert o'.job == (o'.job + "-" + o'.rtype)[..|o'.job|] == (o.job + "-" + o.rtype)[..|o.job| + 1 + n];
    }
    if Behind(o, o') {
      assert o.rtype == o.rtype[..n] + ("-" + o'.rtype);
      assert o.job + "-" + o.rtype == o.job + "-" + o.rtype[..n] + "-" + o'.rtype;
    }
  }

  /**
   All the ways in which two different objects share a general name: jobs of two kinds with one name, or one type
   behind a dash.
   */
  lemma CollisionCases(o: ObjectId, o': ObjectId)
    requires NoSlash(o) && NoSlash(o') && o != o'
    ensures ServiceName(o) == ServiceName(o') <==>
              && o.index == o'.index
              && ((o.job == o'.job && o.rtype == o'.rtype && o.kind != o'.kind) || Behind(o, o') || Behind(o', o))
  {
    ServicesShareNameIff(o, o');
    BehindIff(o, o');
    BehindIff(o', o);
    var stem, stem' := o.job + "-" + o.rtype, o'.job + "-" + o'.rtype;
    if stem == stem' && |o.rtype| == |o'.rtype| {
      assert o.job == stem[..|o.job|] == stem'[..|o'.job|] == o'.job;
      assert o.rtype == stem[|o.job| + 1..] == stem'[|o'.job| + 1..] == o'.rtype;
    }
  }

  const REPLICA_TYPES := {
    "master", "worker", "ps", "chief", "launcher", "scheduler", "extendrole", "webservice", "aimaster", "tensorboard"
  }

  /** The types that the controller of each kind creates objects of, lower-cased as in object names. */
  function TypesOf(kind: string): (r: set<string>)
    ensures r <= REPLICA_TYPES
  {
    if kind == "TFJob" then {"ps", "master", "chief", "worker", "tensorboard"}
    else if kind == "PyTorchJob" then {"aimaster", "master", "worker"}
    else if kind == "XDLJob" then {"ps", "scheduler", "worker", "extendrole"}
    else if kind == "XGBoostJob" then {"master", "worker"}
    else if kind == "MPIJob" then {"worker", "launcher"}
    else if kind == "MarsJob" then {"scheduler", "webservice", "worker"}
    else if kind == "ElasticDLJob" then {"master"}
    else if kind == "ElasticBatchJob" then {"aimaster", "worker"}
    else {}
  }

  predicate OfRepository(o: ObjectId) {
    o.rtype in TypesOf(o.kind)
  }

  lemma PlainTypes(rtype: string)
    requires rtype in REPLICA_TYPES
    ensures Plain(rtype)
  {
  }

  /**
   Two different objects of the repository's job kinds share a name exactly if two jobs of different kinds have one
   name and the objects one type and index; only the pods of ElasticDL masters share it exactly with each other.
   */
  lemma RepositoryObjectsShareNameIff(o: ObjectId, o': ObjectId)
    requires OfRepository(o) && OfRepository(o') && '/' !in o.job && '/' !in o'.job && o != o'
    ensures PodName(o) == PodName(o') <==>
              && o.job == o'.job && o.rtype == o'.rtype
              && if ElasticDLMaster(o) || ElasticDLMaster(o') then o.kind == o'.kind
                 else o.kind != o'.kind && o.index == o'.index
    ensures ServiceName(o) == ServiceName(o') <==>
              o.job == o'.job && o.rtype == o'.rtype && o.index == o'.index && o.kind != o'.kind
  {
    PlainTypes(o.rtype);
    PlainTypes(o'.rtype);
    PlainNeverEnds(o.rtype, "-" + o'.rtype);
    PlainNeverEnds(o'.rtype, "-" + o.rtype);
    CollisionCases(o, o');
    PodsShareNameIff(o, o');
    ServicesShareNameIff(o, o');
  }

  /** Such jobs are real: a TFJob and a PyTorchJob of one name claim the same worker pods. */
  lemma KindsCollide(job: string, index: nat)
    requires '/' !in job
    ensures var o, o' := ObjectId("TFJob", job, "worker", index), ObjectId("PyTorchJob", job, "worker", index);
      OfRepository(o) && OfRepository(o') && o != o' && PodName(o) == PodName(o')
  {
    RepositoryObjectsShareNameIff(ObjectId("TFJob", job, "worker", index), ObjectId("PyTorchJob", job, "worker", index));
  }

  lemma PlainNeverEnds(s: string, suffix: string)
    requires Plain(s) && suffix != [] && suffix[0] == '-'
    ensures !EndsWith(s, suffix)
  {
    if |suffix| <= |s| {
      var k := |s| - |suffix|;
      assert s[k..][0] == s[k] && s[k] in s;
    }
  }

  /** The default name of the workload created for one scheduled time (in Unix seconds). */
  function GetDefaultJobName(cronName: string, unix: int): string {
    cronName + "-" + Itoa(unix)
  }

  lemma DefaultNamesDiffer(cronName: string, unix: int, unix': int)
    requires unix != unix'
    ensures GetDefaultJobName(cronName, unix) != GetDefaultJobName(cronName, unix')
  {
    var name, name' := GetDefaultJobName(cronName, unix), GetDefaultJobName(cronName, unix');
    if name == name' {
      assert Itoa(unix) == name[|cronName| + 1..] == name'[|cronName| + 1..] == Itoa(unix');
      ItoaInjective(unix, unix');
    }
  }

  /** The key of a history entry: workload name and creation time. */
  function HistoryKey(name: string, created: nat): string {
    name + "-" + Itoa(created)
  }

  lemma HistoryKeyInjective(name: string, created: nat, name': string, created': nat)
    requires HistoryKey(name, created) == HistoryKey(name', created')
    ensures name == name' && created == created'
  {
    SplitAtLastDash(name, Itoa(created), name', Itoa(created'));
    ItoaInjective(created, created');
  }
}
