/** Predicting whether an action will be accepted from the experiences nearest to it, and scoring such predictions.
    Arithmetic is over the reals; rounding is not part of this model. */
module Prediction {
  import opened Wrappers

  datatype Config = Config(minSimilarity: real, minSupport: int, minResolved: int, priorWeight: real, minScored: int)

  datatype Neighbor = Neighbor(ref: string, action: string, detail: string, outcome: string, similarity: real)

  datatype Estimate = Estimate(
    p: real, baseline: real, support: nat, resolved: nat, insufficient: bool, evidence: seq<Neighbor>)

  datatype Outcomes = Outcomes(accepted: nat, replaced: nat, ignored: nat)

  const MAX_EVIDENCE := 5

  /** One for a success, zero for a failure; nothing when there is no verdict. */
  function Verdict(outcome: string): Option<real> {
    if outcome == "accepted" then Some(1.0)
    else if outcome == "replaced" || outcome == "ignored" then Some(0.0)
    else None
  }

  ghost predicate Sensible(c: Config) { c.minSimilarity >= 0.0 && c.priorWeight > 0.0 }

  predicate Similar(n: Neighbor, action: string, c: Config) {
    n.action == action && Verdict(n.outcome).Some? && n.similarity >= c.minSimilarity
  }

  function SimilarOnes(ns: seq<Neighbor>, action: string, c: Config): seq<Neighbor> {
    if ns == [] then []
    else
      var n := |ns| - 1;
      var before := SimilarOnes(ns[..n], action, c);
      if Similar(ns[n], action, c) then before + [ns[n]] else before
  }

  function Weights(ns: seq<Neighbor>): real {
    if ns == [] then 0.0 else Weights(ns[..|ns| - 1]) + ns[|ns| - 1].similarity
  }

  /** The similarity of those with a success. */
  function Weighted(ns: seq<Neighbor>): real {
    if ns == [] then 0.0
    else Weighted(ns[..|ns| - 1]) + Worth(ns[|ns| - 1])
  }

  /** The similarity of a success, nothing for anything else. */
  function Worth(n: Neighbor): real {
    n.similarity * (if Verdict(n.outcome).Some? then Verdict(n.outcome).value else 0.0)
  }

  function Resolved(o: Outcomes): nat { o.accepted + o.replaced + o.ignored }

  function Baseline(o: Outcomes): real { (o.accepted as real + 1.0) / (Resolved(o) as real + 2.0) }

  /** The share of successes among the similar, pulled toward the baseline. */
  function Pulled(weighted: real, weights: real, prior: real, baseline: real): real
    requires weights + prior != 0.0
  {
    (weighted + prior * baseline) / (weights + prior)
  }

  predicate Sufficient(support: nat, o: Outcomes, c: Config) {
    Resolved(o) >= c.minResolved && support >= c.minSupport
  }

  function Chance(similar: seq<Neighbor>, o: Outcomes, c: Config): real
    requires Sensible(c) && forall i :: 0 <= i < |similar| ==> similar[i].similarity >= c.minSimilarity
  {
    WeightsAreNotNegative(similar, c);
    if Sufficient(|similar|, o, c) then Pulled(Weighted(similar), Weights(similar), c.priorWeight, Baseline(o))
    else Baseline(o)
  }

  lemma {:induction false} WeightsAreNotNegative(ns: seq<Neighbor>, c: Config)
    requires Sensible(c) && forall i :: 0 <= i < |ns| ==> ns[i].similarity >= c.minSimilarity
    ensures 0.0 <= Weighted(ns) <= Weights(ns)
  {
    if ns != [] {
      WeightsAreNotNegative(ns[..|ns| - 1], c);
    }
  }

  lemma {:induction false} SimilarAreSimilar(ns: seq<Neighbor>, action: string, c: Config)
    ensures forall i :: 0 <= i < |SimilarOnes(ns, action, c)| ==> Similar(SimilarOnes(ns, action, c)[i], action, c)
  {
    hide Similar;
    if ns != [] {
      SimilarAreSimilar(ns[..|ns| - 1], action, c);
    }
  }

  /** A stable sort, the most similar first. */
  function Inserted(ns: seq<Neighbor>, x: Neighbor): seq<Neighbor> {
    if ns == [] || !(x.similarity > ns[|ns| - 1].similarity) then ns + [x]
    else Inserted(ns[..|ns| - 1], x) + [ns[|ns| - 1]]
  }

  function Arranged(ns: seq<Neighbor>): seq<Neighbor> {
    if ns == [] then [] else Inserted(Arranged(ns[..|ns| - 1]), ns[|ns| - 1])
  }

  function Quoted(ns: seq<Neighbor>): seq<Neighbor> {
    if |ns| < MAX_EVIDENCE then ns else ns[..MAX_EVIDENCE]
  }

  function Predicted(action: string, ns: seq<Neighbor>, o: Outcomes, c: Config): Estimate
    requires Sensible(c)
  {
    var similar := SimilarOnes(ns, action, c);
    SimilarAreSimilar(ns, action, c);
    Estimate(Chance(similar, o, c), Baseline(o), |similar|, Resolved(o), !Sufficient(|similar|, o, c), Quoted(Arranged(similar)))
  }

  method Predict(action: string, ns: seq<Neighbor>, o: Outcomes, c: Config) returns (e: Estimate)
    requires Sensible(c)
    ensures e == Predicted(action, ns, o, c)
  {
    NoSums();
    hide Arranged, Similar, Weighted, Weights, Verdict;
    var resolved := o.accepted + o.replaced + o.ignored;
    var baseline := (o.accepted as real + 1.0) / (resolved as real + 2.0);
    var weighted, weights := 0.0, 0.0;
    var similar: seq<Neighbor> := [];
    for i := 0 to |ns|
      invariant similar == SimilarOnes(ns[..i], action, c)
      invariant weighted == Weighted(similar) && weights == Weights(similar)
    {
      assert ns[..i + 1][..i] == ns[..i];
      var n := ns[i];
      var value := Verdict(n.outcome);
      var counts := IsSimilar(n, action, c);
      if !counts {
        continue;
      }
      SumsMore(similar, n);
      weighted := weighted + n.similarity * (if value.Some? then value.value else 0.0);
      weights := weights + n.similarity;
      similar := similar + [n];
    }
    assert ns[..|ns|] == ns;
    SimilarAreSimilar(ns, action, c);
    AtLeast(similar, action, c);
    WeightsAreNotNegative(similar, c);
    var sorted := Arranged(similar);
    var evidence := if |sorted| < MAX_EVIDENCE then sorted else sorted[..MAX_EVIDENCE];
    if resolved < c.minResolved || |similar| < c.minSupport {
      return Estimate(baseline, baseline, |similar|, resolved, true, evidence);
    }
    var p := (weighted + c.priorWeight * baseline) / (weights + c.priorWeight);
    return Estimate(p, baseline, |similar|, resolved, false, evidence);
  }

  lemma NoSums()
    ensures Weighted([]) == 0.0 && Weights([]) == 0.0
  {
  }

  lemma SumsMore(ns: seq<Neighbor>, n: Neighbor)
    ensures Weights(ns + [n]) == Weights(ns) + n.similarity
    ensures Weighted(ns + [n])
            == Weighted(ns) + Worth(n)
  {
    hide Worth;
    assert (ns + [n])[..|ns|] == ns;
  }

  method IsSimilar(n: Neighbor, action: string, c: Config) returns (r: bool)
    ensures r == Similar(n, action, c)
  {
    if n.action != action || Verdict(n.outcome).None? || n.similarity < c.minSimilarity {
      return false;
    }
    return true;
  }

  lemma AtLeast(ns: seq<Neighbor>, action: string, c: Config)
    requires forall i :: 0 <= i < |ns| ==> Similar(ns[i], action, c)
    ensures forall i :: 0 <= i < |ns| ==> ns[i].similarity >= c.minSimilarity
  {
  }

  // ---- what a prediction is ----------------------------------------------------------------------------

  lemma ScaledAtMost(k: real, a: real, b: real)
    requires k >= 0.0 && a <= b
    ensures k * a <= k * b
  {
  }

  lemma Cancelled(k: real, a: real, b: real)
    requires k > 0.0
    ensures k * a <= k * b ==> a <= b
    ensures k * a < k * b ==> a < b
  {
  }

  lemma QuotientBetween(x: real, y: real, low: real, high: real)
    requires y > 0.0 && low * y <= x <= high * y
    ensures low <= x / y <= high
  {
    var q := x / y;
    assert q * y == x;
    Cancelled(y, low, q);
    Cancelled(y, q, high);
  }

  lemma QuotientInside(x: real, y: real)
    requires 0.0 < x < y
    ensures 0.0 < x / y < 1.0
  {
    var q := x / y;
    assert q * y == x;
    Cancelled(y, 0.0, q);
    Cancelled(y, q, 1.0);
  }

  lemma BaselineIsAChance(o: Outcomes)
    ensures 0.0 < Baseline(o) < 1.0
  {
    QuotientInside(o.accepted as real + 1.0, Resolved(o) as real + 2.0);
  }

  lemma Distributes(a: real, x: real, y: real)
    ensures a * (x + y) == a * x + a * y
  {
  }

  /** A mean of two values lies between them. */
  lemma MeanIsBetween(low: real, high: real, x: real, y: real, mass: real)
    requires low <= high && x >= 0.0 && y > 0.0
    requires mass == low * x + high * y || mass == high * x + low * y
    ensures low <= mass / (x + y) <= high
  {
    Distributes(low, x, y);
    Distributes(high, x, y);
    ScaledAtMost(x, low, high);
    ScaledAtMost(y, low, high);
    QuotientBetween(mass, x + y, low, high);
  }

  /** Between the baseline and the weighted share, and strictly between impossible and certain. */
  lemma PulledIsBetween(weighted: real, weights: real, prior: real, baseline: real)
    requires 0.0 <= weighted <= weights && prior > 0.0 && 0.0 < baseline < 1.0
    ensures var p := Pulled(weighted, weights, prior, baseline);
      && 0.0 < p < 1.0
      && (weights > 0.0 ==> var share := weighted / weights;
          (baseline <= p <= share) || (share <= p <= baseline))
      && (weights == 0.0 ==> p == baseline)
  {
    var mass := weighted + prior * baseline;
    QuotientInside(mass, weights + prior);
    if weights > 0.0 {
      var share := weighted / weights;
      assert weighted == share * weights && prior * baseline == baseline * prior;
      if share <= baseline {
        MeanIsBetween(share, baseline, weights, prior, mass);
      } else {
        MeanIsBetween(baseline, share, weights, prior, mass);
      }
    } else {
      assert mass == baseline * 0.0 + baseline * prior;
      MeanIsBetween(baseline, baseline, 0.0, prior, mass);
    }
  }

  /** Little evidence moves a prediction little from the baseline. */
  lemma PulledIsNear(weighted: real, weights: real, prior: real, baseline: real)
    requires 0.0 <= weighted <= weights && prior > 0.0 && 0.0 < baseline < 1.0
    ensures var p := Pulled(weighted, weights, prior, baseline);
      var most := weights / (weights + prior);
      baseline - most <= p <= baseline + most
  {
    var total := weights + prior;
    var mass := weighted + prior * baseline;
    var most := weights / total;
    assert most * total == weights;
    assert (baseline - most) * total == baseline * weights + prior * baseline - weights;
    assert (baseline + most) * total == baseline * weights + prior * baseline + weights;
    ScaledAtMost(weights, 0.0, baseline);
    ScaledAtMost(weights, baseline, 1.0);
    QuotientBetween(mass, total, baseline - most, baseline + most);
  }

  /** A larger share of successes never lowers the prediction. */
  lemma PulledGrows(a: real, b: real, weights: real, prior: real, baseline: real)
    requires a <= b && 0.0 <= weights && prior > 0.0
    ensures Pulled(a, weights, prior, baseline) <= Pulled(b, weights, prior, baseline)
  {
    var total := weights + prior;
    var p := Pulled(b, weights, prior, baseline);
    assert p * total == b + prior * baseline;
    var q := Pulled(a, weights, prior, baseline);
    assert q * total == a + prior * baseline;
    Cancelled(total, q, p);
  }

  /** Every prediction is a chance; it is the baseline without enough evidence, and otherwise lies between the baseline
      and the weighted share, no further from the baseline than the weight of the evidence allows. */
  lemma PredictionIsBounded(action: string, ns: seq<Neighbor>, o: Outcomes, c: Config)
    requires Sensible(c)
    ensures
      var e := Predicted(action, ns, o, c);
      var similar := SimilarOnes(ns, action, c);
      var weights := Weights(similar);
      && 0.0 < e.p < 1.0 && 0.0 <= Weighted(similar) <= weights
      && (e.insufficient ==> e.p == e.baseline)
      && (weights > 0.0 && !e.insufficient ==> var share := Weighted(similar) / weights;
          (e.baseline <= e.p <= share) || (share <= e.p <= e.baseline))
      && e.baseline - weights / (weights + c.priorWeight) <= e.p <= e.baseline + weights / (weights + c.priorWeight)
  {
    var similar := SimilarOnes(ns, action, c);
    SimilarAreSimilar(ns, action, c);
    AtLeast(similar, action, c);
    WeightsAreNotNegative(similar, c);
    BaselineIsAChance(o);
    hide Similar, SimilarOnes, Weights, Weighted, Arranged, Baseline, Pulled;
    PulledIsBetween(Weighted(similar), Weights(similar), c.priorWeight, Baseline(o));
    PulledIsNear(Weighted(similar), Weights(similar), c.priorWeight, Baseline(o));
  }

  // Order and verdicts

  lemma {:induction false} SimilarOnesSplit(a: seq<Neighbor>, b: seq<Neighbor>, action: string, c: Config)
    ensures SimilarOnes(a + b, action, c) == SimilarOnes(a, action, c) + SimilarOnes(b, action, c)
  {
    hide Similar;
    if b == [] {
      assert a + b == a;
    } else {
      SimilarOnesSplit(a, b[..|b| - 1], action, c);
      assert (a + b)[..|a + b| - 1] == a + b[..|b| - 1];
    }
  }

  lemma {:induction false} SumsSplit(a: seq<Neighbor>, b: seq<Neighbor>)
    ensures Weights(a + b) == Weights(a) + Weights(b) && Weighted(a + b) == Weighted(a) + Weighted(b)
  {
    hide Worth;
    if b == [] {
      assert a + b == a;
    } else {
      SumsSplit(a, b[..|b| - 1]);
      assert (a + b)[..|a + b| - 1] == a + b[..|b| - 1];
    }
  }

  function Less(ns: seq<Neighbor>, k: nat): (r: seq<Neighbor>)
    requires k < |ns|
    ensures |r| == |ns| - 1
  {
    ns[..k] + ns[k + 1..]
  }

  lemma LessIs(ns: seq<Neighbor>, k: nat)
    requires k < |ns|
    ensures multiset(Less(ns, k)) == multiset(ns) - multiset{ns[k]}
  {
    assert ns == ns[..k] + [ns[k]] + ns[k + 1..];
  }

  lemma {:induction false} SumsOfLess(ns: seq<Neighbor>, k: nat)
    requires k < |ns|
    ensures Weights(ns) == Weights(Less(ns, k)) + ns[k].similarity
    ensures Weighted(ns)
            == Weighted(Less(ns, k)) + Worth(ns[k])
  {
    hide Worth, Weights, Weighted;
    assert ns == ns[..k] + [ns[k]] + ns[k + 1..];
    SumsAround(ns[..k], ns[k], ns[k + 1..]);
    SumsSplit(ns[..k], ns[k + 1..]);
  }

  /** The sums are the same whatever order the neighbours come in. */
  lemma {:induction false} SumsOfPermutation(a: seq<Neighbor>, b: seq<Neighbor>)
    requires multiset(a) == multiset(b)
    ensures Weights(a) == Weights(b) && Weighted(a) == Weighted(b) && |a| == |b|
    decreases |a|
  {
    assert |multiset(a)| == |a| && |multiset(b)| == |b|;
    hide Worth, Weights, Weighted, Less;
    if a == [] {
      assert b == [];
    } else {
      assert a[0] in multiset(a);
      var k :| 0 <= k < |b| && b[k] == a[0];
      LessIs(a, 0);
      LessIs(b, k);
      SumsOfLess(a, 0);
      SumsOfLess(b, k);
      SumsOfPermutation(Less(a, 0), Less(b, k));
    }
  }

  lemma {:induction false} SimilarOnesOfPermutation(a: seq<Neighbor>, b: seq<Neighbor>, action: string, c: Config)
    requires multiset(a) == multiset(b)
    ensures multiset(SimilarOnes(a, action, c)) == multiset(SimilarOnes(b, action, c))
  {
    forall n ensures multiset(SimilarOnes(a, action, c))[n] == multiset(SimilarOnes(b, action, c))[n] {
      SimilarCount(a, action, c, n);
      SimilarCount(b, action, c, n);
    }
  }

  lemma {:induction false} SimilarCount(ns: seq<Neighbor>, action: string, c: Config, n: Neighbor)
    ensures multiset(SimilarOnes(ns, action, c))[n] == if Similar(n, action, c) then multiset(ns)[n] else 0
  {
    hide Similar;
    if ns != [] {
      SimilarCount(ns[..|ns| - 1], action, c, n);
      assert ns == ns[..|ns| - 1] + [ns[|ns| - 1]];
    }
  }

  /** The order of the neighbours does not matter to the estimate. */
  lemma {:induction false} OrderDoesNotMatter(action: string, a: seq<Neighbor>, b: seq<Neighbor>, o: Outcomes, c: Config)
    requires Sensible(c) && multiset(a) == multiset(b)
    ensures
      var d, e := Predicted(action, a, o, c), Predicted(action, b, o, c);
      d.p == e.p && d.baseline == e.baseline && d.support == e.support && d.insufficient == e.insufficient
  {
    SimilarAreSimilar(a, action, c);
    SimilarAreSimilar(b, action, c);
    AtLeast(SimilarOnes(a, action, c), action, c);
    AtLeast(SimilarOnes(b, action, c), action, c);
    WeightsAreNotNegative(SimilarOnes(a, action, c), c);
    WeightsAreNotNegative(SimilarOnes(b, action, c), c);
    hide Similar, SimilarOnes, Weights, Weighted, Arranged, Baseline;
    SimilarOnesOfPermutation(a, b, action, c);
    SumsOfPermutation(SimilarOnes(a, action, c), SimilarOnes(b, action, c));
  }

  /** Turning a verdict into a success keeps the weights and what is counted, and lowers no sum. */
  lemma {:induction false} SuccessAddsUp(action: string, ns: seq<Neighbor>, i: nat, c: Config)
    requires Sensible(c) && i < |ns| && Verdict(ns[i].outcome).Some?
    ensures
      var a := SimilarOnes(ns, action, c);
      var b := SimilarOnes(ns[i := ns[i].(outcome := "accepted")], action, c);
      |a| == |b| && Weights(a) == Weights(b) && Weighted(a) <= Weighted(b)
  {
    var before, after, rest := ns[..i], ns[i := ns[i].(outcome := "accepted")], ns[i + 1..];
    var x, y := ns[i], ns[i].(outcome := "accepted");
    assert ns == before + [x] + rest && after == before + [y] + rest;
    SimilarOneByOne(before, x, rest, action, c);
    SimilarOneByOne(before, y, rest, action, c);
    SumsAround(SimilarOnes(before, action, c), x, SimilarOnes(rest, action, c));
    SumsAround(SimilarOnes(before, action, c), y, SimilarOnes(rest, action, c));
    if Similar(x, action, c) {
      ScaledAtMost(x.similarity, Verdict(x.outcome).value, 1.0);
    }
  }

  /** When one neighbour's verdict turns into a success, with the counts as they were, the estimate does not drop. */
  lemma {:induction false} SuccessNeverLowers(
    action: string, ns: seq<Neighbor>, i: nat, o: Outcomes, c: Config)
    requires Sensible(c) && i < |ns| && Verdict(ns[i].outcome).Some?
    ensures
      Predicted(action, ns, o, c).p <= Predicted(action, ns[i := ns[i].(outcome := "accepted")], o, c).p
      && Predicted(action, ns, o, c).support == Predicted(action, ns[i := ns[i].(outcome := "accepted")], o, c).support
  {
    var after := ns[i := ns[i].(outcome := "accepted")];
    var a, b := SimilarOnes(ns, action, c), SimilarOnes(after, action, c);
    SuccessAddsUp(action, ns, i, c);
    SimilarAreSimilar(ns, action, c);
    AtLeast(a, action, c);
    WeightsAreNotNegative(a, c);
    hide SimilarOnes, Weights, Weighted, Baseline, Pulled;
    PulledGrows(Weighted(a), Weighted(b), Weights(a), c.priorWeight, Baseline(o));
  }

  lemma {:induction false} SimilarOneByOne(before: seq<Neighbor>, x: Neighbor, rest: seq<Neighbor>, action: string, c: Config)
    ensures SimilarOnes(before + [x] + rest, action, c)
            == SimilarOnes(before, action, c) + (if Similar(x, action, c) then [x] else []) + SimilarOnes(rest, action, c)
  {
    hide Similar;
    SimilarOnesSplit(before + [x], rest, action, c);
    assert (before + [x])[..|before|] == before;
  }

  lemma {:induction false} SumsAround(a: seq<Neighbor>, x: Neighbor, b: seq<Neighbor>)
    ensures Weights(a + [x] + b) == Weights(a) + x.similarity + Weights(b)
    ensures Weighted(a + [x] + b)
            == Weighted(a) + Worth(x) + Weighted(b)
  {
    hide Worth;
    SumsMore(a, x);
    SumsSplit(a + [x], b);
  }

  // ---- the estimate, told by the neighbours themselves ---------------------------------------------------

  ghost predicate Decided(outcome: string) { outcome in {"accepted", "replaced", "ignored"} }

  /** A neighbour that counts: the same action, a verdict, and similar enough. */
  ghost predicate Counts(n: Neighbor, action: string, c: Config) {
    n.action == action && Decided(n.outcome) && n.similarity >= c.minSimilarity
  }

  ghost function CountedPlaces(ns: seq<Neighbor>, action: string, c: Config): set<nat> {
    set i: nat | i < |ns| && Counts(ns[i], action, c)
  }

  /** The similarity of the neighbours that count, of those accepted alone if asked. */
  ghost function Mass(ns: seq<Neighbor>, action: string, c: Config, acceptedOnly: bool): real {
    if ns == [] then 0.0
    else
      Mass(ns[1..], action, c, acceptedOnly)
      + if Counts(ns[0], action, c) && (acceptedOnly ==> ns[0].outcome == "accepted") then ns[0].similarity else 0.0
  }

  lemma OneNeighbor(n: Neighbor, action: string, c: Config)
    ensures Similar(n, action, c) <==> Counts(n, action, c)
    ensures Counts(n, action, c) ==> Worth(n) == if n.outcome == "accepted" then n.similarity else 0.0
  {
  }

  lemma {:induction false} MassIs(ns: seq<Neighbor>, action: string, c: Config)
    ensures Weights(SimilarOnes(ns, action, c)) == Mass(ns, action, c, false)
    ensures Weighted(SimilarOnes(ns, action, c)) == Mass(ns, action, c, true)
  {
    NoSums();
    if ns != [] {
      hide Similar, Counts, Worth, Weights, Weighted, SimilarOnes;
      var rest := ns[1..];
      assert ns == [] + [ns[0]] + rest;
      MassIs(rest, action, c);
      OneNeighbor(ns[0], action, c);
      SimilarOneByOne([], ns[0], rest, action, c);
      assert SimilarOnes([], action, c) == [] by { NoneSimilar(action, c); }
      if Similar(ns[0], action, c) {
        assert SimilarOnes(ns, action, c) == [] + [ns[0]] + SimilarOnes(rest, action, c);
        SumsAround([], ns[0], SimilarOnes(rest, action, c));
      } else {
        assert SimilarOnes(ns, action, c) == SimilarOnes(rest, action, c);
      }
    }
  }

  lemma NoneSimilar(action: string, c: Config)
    ensures SimilarOnes([], action, c) == []
  {
  }

  lemma {:induction false} SimilarOnesCount(ns: seq<Neighbor>, action: string, c: Config)
    ensures |SimilarOnes(ns, action, c)| == |CountedPlaces(ns, action, c)|
  {
    hide Similar, Counts;
    if ns != [] {
      var n := |ns| - 1;
      SimilarOnesCount(ns[..n], action, c);
      OneNeighbor(ns[n], action, c);
      var before := CountedPlaces(ns[..n], action, c);
      assert CountedPlaces(ns, action, c) == if Counts(ns[n], action, c) then before + {n} else before;
    }
  }

  ghost predicate MostSimilarFirst(ns: seq<Neighbor>) {
    forall i, j :: 0 <= i < j < |ns| ==> ns[i].similarity >= ns[j].similarity
  }

  lemma {:induction false} InsertedSorts(ns: seq<Neighbor>, x: Neighbor)
    requires MostSimilarFirst(ns)
    ensures MostSimilarFirst(Inserted(ns, x)) && multiset(Inserted(ns, x)) == multiset(ns) + multiset{x}
  {
    if ns == [] || !(x.similarity > ns[|ns| - 1].similarity) {
      LastSorts(ns, x);
    } else {
      var n := |ns| - 1;
      assert ns == ns[..n] + [ns[n]];
      InsertedSorts(ns[..n], x);
      var before := Inserted(ns[..n], x);
      assert multiset(before) == multiset(ns[..n]) + multiset{x};
      forall y <- before
        ensures y.similarity >= ns[n].similarity
      {
        assert y in multiset(before);
      }
      hide Inserted, MostSimilarFirst;
      EachAtLeast(before, ns[n].similarity);
      LastSorts(before, ns[n]);
      assert Inserted(ns, x) == before + [ns[n]] by { InsertedBefore(ns, x); }
    }
  }

  lemma InsertedBefore(ns: seq<Neighbor>, x: Neighbor)
    requires ns != [] && x.similarity > ns[|ns| - 1].similarity
    ensures Inserted(ns, x) == Inserted(ns[..|ns| - 1], x) + [ns[|ns| - 1]]
  {
  }

  lemma EachAtLeast(ns: seq<Neighbor>, least: real)
    requires forall y <- ns :: y.similarity >= least
    ensures forall i :: 0 <= i < |ns| ==> ns[i].similarity >= least
  {
  }

  lemma LastSorts(ns: seq<Neighbor>, x: Neighbor)
    requires MostSimilarFirst(ns) && (ns == [] || ns[|ns| - 1].similarity >= x.similarity)
    ensures MostSimilarFirst(ns + [x])
  {
  }

  lemma {:induction false} ArrangedSorts(ns: seq<Neighbor>)
    ensures MostSimilarFirst(Arranged(ns)) && multiset(Arranged(ns)) == multiset(ns)
  {
    if ns != [] {
      var n := |ns| - 1;
      assert ns == ns[..n] + [ns[n]];
      ArrangedSorts(ns[..n]);
      InsertedSorts(Arranged(ns[..n]), ns[n]);
    }
  }

  ghost function Ratio(part: real, whole: real): real
    requires whole > 0.0
  {
    part / whole
  }

  /** The share of the accepted weight, a prior weight of the baseline counted in. */
  ghost function Toward(accepted: real, all: real, prior: real, baseline: real): real
    requires all >= 0.0 && prior > 0.0
  {
    Ratio(accepted + baseline * prior, all + prior)
  }

  lemma PulledIsToward(accepted: real, all: real, prior: real, baseline: real)
    requires all >= 0.0 && prior > 0.0
    ensures Pulled(accepted, all, prior, baseline) == Toward(accepted, all, prior, baseline)
  {
    assert prior * baseline == baseline * prior;
  }

  /** The estimate in terms of the neighbours that count: how many there are, what they weigh, and how much of that
      was accepted. */
  lemma EstimateIs(action: string, ns: seq<Neighbor>, o: Outcomes, c: Config)
    requires Sensible(c)
    ensures
      var e := Predicted(action, ns, o, c);
      && e.support == |CountedPlaces(ns, action, c)| && e.resolved == o.accepted + o.replaced + o.ignored
      && e.baseline == Ratio(o.accepted as real + 1.0, e.resolved as real + 2.0)
      && (e.insufficient <==> e.resolved < c.minResolved || e.support < c.minSupport)
      && Mass(ns, action, c, false) >= 0.0
      && e.p == (if e.insufficient then e.baseline
                 else Toward(Mass(ns, action, c, true), Mass(ns, action, c, false), c.priorWeight, e.baseline))
  {
    var similar := SimilarOnes(ns, action, c);
    MassIs(ns, action, c);
    SimilarOnesCount(ns, action, c);
    SimilarAreSimilar(ns, action, c);
    AtLeast(similar, action, c);
    BaselineIs(o);
    ChanceIs(similar, o, c);
    hide *;
    PredictedIs(action, ns, o, c);
  }

  lemma PredictedIs(action: string, ns: seq<Neighbor>, o: Outcomes, c: Config)
    requires Sensible(c)
    ensures
      var e, similar := Predicted(action, ns, o, c), SimilarOnes(ns, action, c);
      && (forall i :: 0 <= i < |similar| ==> similar[i].similarity >= c.minSimilarity)
      && e.p == Chance(similar, o, c) && e.baseline == Baseline(o) && e.support == |similar|
      && e.resolved == Resolved(o) && Resolved(o) == o.accepted + o.replaced + o.ignored
      && e.insufficient == !Sufficient(|similar|, o, c)
      && (Sufficient(|similar|, o, c) <==> Resolved(o) >= c.minResolved && |similar| >= c.minSupport)
  {
    SimilarAreSimilar(ns, action, c);
    AtLeast(SimilarOnes(ns, action, c), action, c);
    hide Chance, Baseline, Arranged, Quoted, SimilarOnes;
  }

  lemma BaselineIs(o: Outcomes)
    ensures Baseline(o) == Ratio(o.accepted as real + 1.0, Resolved(o) as real + 2.0)
  {
  }

  lemma ChanceIs(similar: seq<Neighbor>, o: Outcomes, c: Config)
    requires Sensible(c) && forall i :: 0 <= i < |similar| ==> similar[i].similarity >= c.minSimilarity
    ensures
      && Weights(similar) >= 0.0
      && Chance(similar, o, c)
         == if Sufficient(|similar|, o, c)
            then Toward(Weighted(similar), Weights(similar), c.priorWeight, Baseline(o))
            else Baseline(o)
  {
    WeightsAreNotNegative(similar, c);
    hide Weights, Weighted, Baseline, Sufficient, Pulled, Toward;
    PulledIsToward(Weighted(similar), Weights(similar), c.priorWeight, Baseline(o));
  }

  /** What is quoted are the five most similar of them, or all if fewer, the most similar first. */
  lemma EvidenceIs(action: string, ns: seq<Neighbor>, o: Outcomes, c: Config, n: Neighbor)
    requires Sensible(c)
    ensures
      var e := Predicted(action, ns, o, c);
      && |e.evidence| == (if e.support < 5 then e.support else 5) && MostSimilarFirst(e.evidence)
      && (n in e.evidence ==> n in ns && Counts(n, action, c))
      && (n in ns && Counts(n, action, c) ==>
            n in e.evidence || (|e.evidence| == 5 && e.evidence[4].similarity >= n.similarity))
  {
    var similar := SimilarOnes(ns, action, c);
    var all := Arranged(similar);
    ArrangedSorts(similar);
    assert |multiset(all)| == |all| && |multiset(similar)| == |similar|;
    SimilarCount(ns, action, c, n);
    OneNeighbor(n, action, c);
    assert multiset(similar)[n] == multiset(all)[n];
    hide Similar, SimilarOnes, Weights, Weighted, Arranged, Counts;
    assert n in all <==> n in ns && Counts(n, action, c) by {
      assert n in all <==> n in multiset(all);
      assert n in ns <==> n in multiset(ns);
    }
    if n in all {
      var k :| 0 <= k < |all| && all[k] == n;
      assert k < 5 && k < |all| ==> Quoted(all)[k] == n;
    }
  }

  // ---- the scorecard -----------------------------------------------------------------------------------

  datatype Experience = Experience(ref: string, action: string, outcome: string, predicted: Option<real>, baseline: Option<real>)

  datatype Scorecard = Scorecard(
    scored: nat, unscored: nat, brierPrediction: real, brierBaseline: real, skill: real, beatsBaseline: bool, enoughData: bool)

  predicate Scorable(e: Experience) { Verdict(e.outcome).Some? && e.predicted.Some? && e.baseline.Some? }

  function Square(x: real): real { x * x }

  function Scored(rows: seq<Experience>): nat {
    if rows == [] then 0 else Scored(rows[..|rows| - 1]) + if Scorable(rows[|rows| - 1]) then 1 else 0
  }

  /** The squared gaps between what was said and what happened. */
  function Gaps(rows: seq<Experience>, ofBaseline: bool): real {
    if rows == [] then 0.0
    else
      var e := rows[|rows| - 1];
      Gaps(rows[..|rows| - 1], ofBaseline)
      + if Scorable(e) then Square((if ofBaseline then e.baseline.value else e.predicted.value) - Verdict(e.outcome).value) else 0.0
  }

  /** The mean squared gap over what can be scored. */
  function Brier(rows: seq<Experience>, ofBaseline: bool): real {
    if Scored(rows) == 0 then 0.0 else Gaps(rows, ofBaseline) / (Scored(rows) as real)
  }

  lemma {:induction false} GapsAreNotNegative(rows: seq<Experience>, ofBaseline: bool)
    ensures Gaps(rows, ofBaseline) >= 0.0
  {
    hide Verdict;
    if rows != [] {
      GapsAreNotNegative(rows[..|rows| - 1], ofBaseline);
    }
  }

  /** One more experience is scored if it has a verdict and both chances, and adds the square of what they missed. */
  lemma OneMoreScored(rows: seq<Experience>, e: Experience, ofBaseline: bool)
    ensures
      var said := if ofBaseline then e.baseline else e.predicted;
      var scorable := Decided(e.outcome) && e.predicted.Some? && e.baseline.Some?;
      && Scored(rows + [e]) == Scored(rows) + (if scorable then 1 else 0)
      && Gaps(rows + [e], ofBaseline)
         == Gaps(rows, ofBaseline)
            + (if !scorable then 0.0
               else if e.outcome == "accepted" then (said.value - 1.0) * (said.value - 1.0)
               else said.value * said.value)
  {
    assert (rows + [e])[..|rows|] == rows;
    VerdictIs(e.outcome);
    hide Verdict;
  }

  lemma VerdictIs(outcome: string)
    ensures Verdict(outcome) == if Decided(outcome) then Some(if outcome == "accepted" then 1.0 else 0.0) else None
  {
  }

  /** The prediction beats the baseline exactly when its mean squared gap is smaller. */
  method Score(rows: seq<Experience>, minScored: int) returns (card: Scorecard)
    ensures card.scored == Scored(rows) && card.scored + card.unscored == |rows|
    ensures card.brierPrediction == Brier(rows, false) && card.brierBaseline == Brier(rows, true)
    ensures card.beatsBaseline <==> Brier(rows, false) < Brier(rows, true)
    ensures card.enoughData <==> card.scored > 0 && card.scored >= minScored
    ensures Brier(rows, true) > 0.0 ==> card.skill * Brier(rows, true) == Brier(rows, true) - Brier(rows, false)
  {
    hide Verdict, Square;
    var scored, unscored := 0, 0;
    var predictionError, baselineError := 0.0, 0.0;
    for i := 0 to |rows|
      invariant scored == Scored(rows[..i]) && scored + unscored == i
      invariant predictionError == Gaps(rows[..i], false) && baselineError == Gaps(rows[..i], true)
    {
      assert rows[..i + 1][..i] == rows[..i];
      var e := rows[i];
      var value := Verdict(e.outcome);
      if value.None? || e.predicted.None? || e.baseline.None? {
        unscored := unscored + 1;
        continue;
      }
      scored := scored + 1;
      predictionError := predictionError + Square(e.predicted.value - value.value);
      baselineError := baselineError + Square(e.baseline.value - value.value);
    }
    assert rows[..|rows|] == rows;
    if scored == 0 {
      return Scorecard(0, unscored, 0.0, 0.0, 0.0, false, false);
    }
    GapsAreNotNegative(rows, false);
    GapsAreNotNegative(rows, true);
    var brierPrediction := predictionError / (scored as real);
    var brierBaseline := baselineError / (scored as real);
    var skill := 0.0;
    if brierBaseline > 0.0 {
      skill := 1.0 - brierPrediction / brierBaseline;
    }
    return Scorecard(scored, unscored, brierPrediction, brierBaseline, skill, skill > 0.0, scored >= minScored);
  }
}
