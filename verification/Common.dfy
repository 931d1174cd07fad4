/** Types shared by every component: optional values, replica types and pod phases. */
module Common {
  datatype Option<+T> = None | Some(value: T)

  /** Replica types named in the job APIs; `Other` stands for any further type a job spec may list. */
  datatype ReplicaType =
    | AIMaster | Master | Worker | PS | Scheduler | ExtendRole
    | Other(name: string)

  /** Pod phases; `UnknownPhase` is the API's own "Unknown" phase. */
  datatype Phase = Pending | Running | Succeeded | Failed | UnknownPhase

  /** The value of a 64-bit integer after Go's conversion to int32. */
  function Int32(x: int): (r: int)
    ensures -0x8000_0000 <= r < 0x8000_0000
    ensures (r - x) % 0x1_0000_0000 == 0
    ensures -0x8000_0000 <= x < 0x8000_0000 ==> r == x
  {
    (x + 0x8000_0000) % 0x1_0000_0000 - 0x8000_0000
  }

  predicate Below(j: int, n: nat) {
    0 <= j < n
  }

  /** The indices 0 .. n-1. */
  function UpTo(n: nat): set<int> {
    set j | 0 <= j < n && Below(j, n)
  }

  ghost predicate Distinct<T>(s: seq<T>) {
    forall i, j :: 0 <= i < j < |s| ==> s[i] != s[j]
  }

  /** `order` lists exactly the keys in `keys`, each once: one possible iteration order of a Go map. */
  ghost predicate IterationOrder<K(!new)>(order: seq<K>, keys: set<K>) {
    Distinct(order) && forall k :: k in order <==> k in keys
  }

  function Pow2(k: nat): (r: nat)
    ensures r >= 1
  {
    if k == 0 then 1 else 2 * Pow2(k - 1)
  }
}
