/**
 The traffic split between the predictors of an inference service
 (controllers/serving/inference_controller.go, computePredictorTrafficRatios).

 Names are map keys, so of predictors with one name the last one counts, while the total counts them all.
 The second loop ranges over the map in any order.
 */
module Traffic {
  import opened Common

  datatype Predictor = Predictor(name: string, trafficWeight: Option<int>)

  const DEFAULT_TRAFFIC_PERCENTAGE := 100

  function Weight(p: Predictor): int {
    if p.trafficWeight.Some? then p.trafficWeight.value else DEFAULT_TRAFFIC_PERCENTAGE
  }

  function Total(ps: seq<Predictor>): int {
    if ps == [] then 0 else Total(ps[..|ps| - 1]) + Weight(ps[|ps| - 1])
  }

  function Weights(ps: seq<Predictor>): map<string, int> {
    if ps == [] then map[] else Weights(ps[..|ps| - 1])[ps[|ps| - 1].name := Weight(ps[|ps| - 1])]
  }

  /** Go's integer division: towards zero. */
  function Quotient(a: int, b: int): int
    requires b != 0
  {
    if a >= 0 then (if b > 0 then a / b else -(a / -b))
    else if b > 0 then -(-a / b) else -a / -b
  }

  function Ratios(weights: map<string, int>, total: int): map<string, int>
    requires total != 0 || weights == map[]
  {
    map name | name in weights :: Quotient(weights[name] * 100, total)
  }

  /** A total of zero makes the code divide by zero, unless there is no predictor at all. */
  method ComputePredictorTrafficRatios(predictors: seq<Predictor>) returns (ratios: map<string, int>)
    requires Total(predictors) != 0 || predictors == []
    ensures ratios == Ratios(Weights(predictors), Total(predictors))
  {
    var total := 0;
    ratios := map[];
    for pi := 0 to |predictors|
      invariant total == Total(predictors[..pi]) && ratios == Weights(predictors[..pi])
    {
      assert predictors[..pi + 1][..pi] == predictors[..pi];
      var percentage := DEFAULT_TRAFFIC_PERCENTAGE;
      if predictors[pi].trafficWeight.Some? {
        percentage := predictors[pi].trafficWeight.value;
      }
      total := total + percentage;
      ratios := ratios[predictors[pi].name := percentage];
    }
    assert predictors[..|predictors|] == predictors;
    ghost var weights := ratios;
    var remaining := ratios.Keys;
    while remaining != {}
      invariant ratios.Keys == weights.Keys && remaining <= weights.Keys
      invariant predictors == [] ==> weights == map[]
      invariant forall name :: name in weights ==>
        ratios[name] == if name in remaining then weights[name] else Ratios(weights, total)[name]
    {
      var name :| name in remaining;
      ratios := ratios[name := Quotient(ratios[name] * 100, total)];
      remaining := remaining - {name};
    }
  }

  ghost predicate DistinctNames(ps: seq<Predictor>) {
    forall i, j :: 0 <= i < j < |ps| ==> ps[i].name != ps[j].name
  }

  ghost predicate NonNegative(ps: seq<Predictor>) {
    forall i :: 0 <= i < |ps| ==> Weight(ps[i]) >= 0
  }

  /** Sum of the ratios, listed in the order of the predictors; with distinct names this is the sum over the map. */
  function RatioSum(ps: seq<Predictor>, total: int): int
    requires total > 0
  {
    if ps == [] then 0 else RatioSum(ps[..|ps| - 1], total) + Quotient(Weight(ps[|ps| - 1]) * 100, total)
  }

  lemma {:induction false} WeightsMeaning(ps: seq<Predictor>, i: nat)
    requires DistinctNames(ps) && i < |ps|
    ensures ps[i].name in Weights(ps) && Weights(ps)[ps[i].name] == Weight(ps[i])
  {
    if i < |ps| - 1 {
      WeightsMeaning(ps[..|ps| - 1], i);
    }
  }

  lemma {:induction false} WeightsKeys(ps: seq<Predictor>)
    requires DistinctNames(ps)
    ensures |Weights(ps)| == |ps|
    ensures forall name :: name in Weights(ps) <==> exists i :: 0 <= i < |ps| && ps[i].name == name
  {
    if ps != [] {
      var front, last := ps[..|ps| - 1], ps[|ps| - 1];
      WeightsKeys(front);
      assert last.name !in Weights(front);
      forall name ensures name in Weights(ps) <==> exists i :: 0 <= i < |ps| && ps[i].name == name {
        if name in Weights(front) {
          var i :| 0 <= i < |front| && front[i].name == name;
          assert ps[i].name == name;
        }
        if i :| 0 <= i < |ps| && ps[i].name == name {
          assert i < |front| ==> front[i].name == name;
        }
      }
      assert ps[|ps| - 1].name == last.name;
    }
  }

  /** `percent` is the share of `w` in `total`, rounded down. */
  predicate IsShare(percent: int, w: int, total: int) {
    percent * total <= w * 100 < (percent + 1) * total
  }

  lemma ShareOf(w: int, total: int)
    requires total > 0 && w >= 0
    ensures IsShare(Quotient(w * 100, total), w, total)
  {
    QuotientBounds(w, total);
  }

  lemma QuotientBounds(w: int, total: int)
    requires total > 0 && w >= 0
    ensures var q := Quotient(w * 100, total);
      0 <= q && q * total <= w * 100 < (q + 1) * total
  {
    var x := w * 100;
    assert x == x / total * total + x % total;
  }

  lemma {:induction false} TotalBoundsWeight(ps: seq<Predictor>, i: nat)
    requires NonNegative(ps) && i < |ps|
    ensures Total(ps) >= Weight(ps[i]) >= 0
  {
    var front := ps[..|ps| - 1];
    if i < |front| {
      TotalBoundsWeight(front, i);
    } else {
      TotalIsNonNegative(front);
    }
  }

  lemma {:induction false} TotalIsNonNegative(ps: seq<Predictor>)
    requires NonNegative(ps)
    ensures Total(ps) >= 0
  {
    if ps != [] {
      TotalIsNonNegative(ps[..|ps| - 1]);
    }
  }

  lemma Order(a: int, b: int, d: int)
    requires d > 0
    ensures a * d < b * d <==> a < b
  {
    if a < b {
      assert (b - a) * d > 0;
    } else {
      assert (a - b) * d >= 0;
    }
  }

  lemma Distribute(a: int, b: int, d: int)
    ensures (a + b) * d == a * d + b * d
  {
  }

  lemma ShareIsPercentage(w: int, total: int)
    requires 0 <= w <= total && total > 0
    ensures 0 <= Quotient(w * 100, total) <= 100
  {
    QuotientBounds(w, total);
    Order(100, Quotient(w * 100, total), total);
  }

  lemma ShareIsMonotone(w: int, v: int, total: int)
    requires 0 <= w <= v && total > 0
    ensures Quotient(w * 100, total) <= Quotient(v * 100, total)
  {
    QuotientBounds(w, total);
    QuotientBounds(v, total);
    Order(Quotient(w * 100, total), Quotient(v * 100, total) + 1, total);
  }

  /** Each ratio is a percentage, and a larger weight never gets a smaller one. */
  lemma RatioInRange(ps: seq<Predictor>, i: nat, j: nat)
    requires DistinctNames(ps) && NonNegative(ps) && Total(ps) > 0 && i < |ps| && j < |ps|
    ensures var ratios := Ratios(Weights(ps), Total(ps));
      && ps[i].name in ratios && ps[j].name in ratios
      && 0 <= ratios[ps[i].name] <= 100
      && (Weight(ps[i]) <= Weight(ps[j]) ==> ratios[ps[i].name] <= ratios[ps[j].name])
  {
    WeightsMeaning(ps, i);
    WeightsMeaning(ps, j);
    TotalBoundsWeight(ps, i);
    ShareIsPercentage(Weight(ps[i]), Total(ps));
    if Weight(ps[i]) <= Weight(ps[j]) {
      ShareIsMonotone(Weight(ps[i]), Weight(ps[j]), Total(ps));
    }
  }

  lemma QuotientIsExact(w: int, total: int)
    requires total > 0 && w >= 0
    ensures w * 100 == Quotient(w * 100, total) * total + w * 100 % total
  {
  }

  /** The total adds up, weight by weight. */
  lemma {:induction false} TotalAdds(a: seq<Predictor>, b: seq<Predictor>, p: Predictor)
    ensures Total(a + b) == Total(a) + Total(b)
    ensures Total([p]) == if p.trafficWeight == None then 100 else p.trafficWeight.value
  {
    assert [p][..0] == [];
    if b == [] {
      assert a + b == a;
    } else {
      TotalAdds(a, b[..|b| - 1], p);
      assert (a + b)[..|a + b| - 1] == a + b[..|b| - 1];
    }
  }

  /** A ratio is the weight's exact share in percent, rounded down; a predictor without weight counts like one of weight 100. */
  lemma ShareIsExact(ps: seq<Predictor>, i: nat)
    requires DistinctNames(ps) && NonNegative(ps) && Total(ps) > 0 && i < |ps|
    ensures var ratios, total := Ratios(Weights(ps), Total(ps)), Total(ps);
      && ps[i].name in ratios
      && IsShare(ratios[ps[i].name], if ps[i].trafficWeight == None then 100 else ps[i].trafficWeight.value, total)
  {
    WeightsMeaning(ps, i);
    ShareOf(Weight(ps[i]), Total(ps));
  }

  /** Of predictors with one name the last one counts, though the total has them all. */
  lemma {:induction false} LastOfNameCounts(ps: seq<Predictor>, i: nat)
    requires i < |ps| && forall j :: i < j < |ps| ==> ps[j].name != ps[i].name
    ensures ps[i].name in Weights(ps)
    ensures Weights(ps)[ps[i].name] == if ps[i].trafficWeight == None then 100 else ps[i].trafficWeight.value
  {
    if i < |ps| - 1 {
      LastOfNameCounts(ps[..|ps| - 1], i);
    }
  }

  /** What the divisions leave over. */
  function Remainders(ps: seq<Predictor>, total: int): (r: int)
    requires total > 0
    ensures 0 <= r <= |ps| * (total - 1)
  {
    if ps == [] then 0
    else
      Distribute(|ps| - 1, 1, total - 1);
      Remainders(ps[..|ps| - 1], total) + Weight(ps[|ps| - 1]) * 100 % total
  }

  lemma {:induction false} SumAndRemainders(ps: seq<Predictor>, total: int)
    requires NonNegative(ps) && total > 0
    ensures Total(ps) * 100 == RatioSum(ps, total) * total + Remainders(ps, total)
  {
    if ps != [] {
      var front, w := ps[..|ps| - 1], Weight(ps[|ps| - 1]);
      SumAndRemainders(front, total);
      QuotientIsExact(w, total);
      Distribute(RatioSum(front, total), Quotient(w * 100, total), total);
    }
  }

  lemma {:induction false} NoRemainder(ps: seq<Predictor>, total: int)
    requires total > 0
    ensures Remainders(ps, total) == 0 <==> forall i :: 0 <= i < |ps| ==> Weight(ps[i]) * 100 % total == 0
  {
    if ps != [] {
      var front := ps[..|ps| - 1];
      NoRemainder(front, total);
      assert forall i :: 0 <= i < |front| ==> front[i] == ps[i];
    }
  }

  lemma SumBounds(ps: seq<Predictor>)
    requires NonNegative(ps) && Total(ps) > 0
    ensures 100 - |ps| < RatioSum(ps, Total(ps)) <= 100
    ensures RatioSum(ps, Total(ps)) == 100 <==> forall i :: 0 <= i < |ps| ==> Weight(ps[i]) * 100 % Total(ps) == 0
  {
    var total := Total(ps);
    SumAndRemainders(ps, total);
    NoRemainder(ps, total);
    NearlyHundred(RatioSum(ps, total), Remainders(ps, total), |ps|, total);
  }

  lemma NearlyHundred(s: int, r: int, n: nat, total: int)
    requires total > 0 && n > 0 && total * 100 == s * total + r && 0 <= r <= n * (total - 1)
    ensures 100 - n < s <= 100 && (s == 100 <==> r == 0)
  {
    var d := 100 - s;
    Distribute(d, s, total);
    Distribute(total, -1, n);
    Order(d, n, total);
    Order(d, 0, total);
    Order(0, d, total);
  }

  /** The sum over the map, its entries taken in some order. */
  function SumOver(ratios: map<string, int>, order: seq<string>): int
    requires forall i :: 0 <= i < |order| ==> order[i] in ratios
  {
    if order == [] then 0 else SumOver(ratios, order[..|order| - 1]) + ratios[order[|order| - 1]]
  }

  lemma {:induction false} TakeOut(ratios: map<string, int>, order: seq<string>, p: nat)
    requires p < |order| && forall i :: 0 <= i < |order| ==> order[i] in ratios
    ensures SumOver(ratios, order) == SumOver(ratios, order[..p] + order[p + 1..]) + ratios[order[p]]
  {
    var front, rest := order[..|order| - 1], order[..p] + order[p + 1..];
    if p == |order| - 1 {
      assert rest == front;
    } else {
      TakeOut(ratios, front, p);
      assert rest[..|rest| - 1] == front[..p] + front[p + 1..];
    }
  }

  lemma {:induction false} SumAgrees(a: map<string, int>, b: map<string, int>, order: seq<string>)
    requires forall i :: 0 <= i < |order| ==> order[i] in a && order[i] in b && a[order[i]] == b[order[i]]
    ensures SumOver(a, order) == SumOver(b, order)
  {
    if order != [] {
      SumAgrees(a, b, order[..|order| - 1]);
    }
  }

  lemma WithoutOne(order: seq<string>, p: nat, keys: set<string>)
    requires p < |order| && IterationOrder(order, keys)
    ensures IterationOrder(order[..p] + order[p + 1..], keys - {order[p]})
  {
    var rest := order[..p] + order[p + 1..];
    assert forall i :: 0 <= i < |rest| ==> rest[i] == order[if i < p then i else i + 1];
    forall k | k in keys - {order[p]} ensures k in rest {
      var i :| 0 <= i < |order| && order[i] == k;
      assert rest[if i < p then i else i - 1] == k;
    }
  }

  /** In every order the map adds up to the same sum. */
  lemma {:induction false} AnyOrderSums(ps: seq<Predictor>, total: int, order: seq<string>)
    requires DistinctNames(ps) && total > 0 && IterationOrder(order, Weights(ps).Keys)
    ensures SumOver(Ratios(Weights(ps), total), order) == RatioSum(ps, total)
  {
    if ps == [] {
      OrderLength(order, {});
    } else {
      var last := ps[|ps| - 1];
      assert last.name in Weights(ps).Keys;
      var p :| 0 <= p < |order| && order[p] == last.name;
      LastTakenOut(ps, total, order, p);
      AnyOrderSums(ps[..|ps| - 1], total, order[..p] + order[p + 1..]);
    }
  }

  lemma LastTakenOut(ps: seq<Predictor>, total: int, order: seq<string>, p: nat)
    requires DistinctNames(ps) && total > 0 && IterationOrder(order, Weights(ps).Keys) && ps != []
    requires p < |order| && order[p] == ps[|ps| - 1].name
    ensures var front, rest := ps[..|ps| - 1], order[..p] + order[p + 1..];
      && IterationOrder(rest, Weights(front).Keys)
      && SumOver(Ratios(Weights(ps), total), order) ==
           SumOver(Ratios(Weights(front), total), rest) + Quotient(Weight(ps[|ps| - 1]) * 100, total)
  {
    var front, rest := ps[..|ps| - 1], order[..p] + order[p + 1..];
    var ratios, before := Ratios(Weights(ps), total), Ratios(Weights(front), total);
    WeightsKeys(front);
    assert order[p] !in Weights(front);
    assert Weights(ps).Keys - {order[p]} == Weights(front).Keys;
    WithoutOne(order, p, Weights(ps).Keys);
    TakeOut(ratios, order, p);
    forall i | 0 <= i < |rest| ensures rest[i] in ratios && rest[i] in before && ratios[rest[i]] == before[rest[i]] {
      assert rest[i] in rest;
    }
    SumAgrees(ratios, before, rest);
  }

  /**
   With distinct names, weights that are not negative and a positive total, the n ratios add up to at most 100
   and to more than 100 - n, and to exactly 100 if and only if no division leaves a remainder.
   */
  lemma SplitIsNearlyWhole(ps: seq<Predictor>, order: seq<string>)
    requires DistinctNames(ps) && NonNegative(ps) && Total(ps) > 0
    requires IterationOrder(order, Weights(ps).Keys)
    ensures |order| == |ps|
    ensures var sum := SumOver(Ratios(Weights(ps), Total(ps)), order);
      && 100 - |ps| < sum <= 100
      && (sum == 100 <==> forall i :: 0 <= i < |ps| ==> Weight(ps[i]) * 100 % Total(ps) == 0)
  {
    SumBounds(ps);
    AnyOrderSums(ps, Total(ps), order);
    WeightsKeys(ps);
    OrderLength(order, Weights(ps).Keys);
  }

  lemma {:induction false} OrderLength(order: seq<string>, keys: set<string>)
    requires IterationOrder(order, keys)
    ensures |order| == |keys|
  {
    if order == [] {
      assert keys == {};
    } else {
      WithoutOne(order, |order| - 1, keys);
      OrderLength(order[..|order| - 1] + order[|order|..], keys - {order[|order| - 1]});
      assert order[|order| - 1] in keys;
    }
  }
}
