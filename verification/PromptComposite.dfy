/** The per-prompt composite score, its per-engine breakdown, and how far rounding can pull them apart. */
module PromptComposite {
  import opened Executions
  import opened Products
  import opened Rounding
  import Ordering
  import Counting

  datatype Weights = Weights(visibility: real, owned: real, competitive: real)

  predicate Positive(w: Weights) {
    w.visibility > 0.0 && w.owned > 0.0 && w.competitive > 0.0
  }

  /** What one completed execution contributes to its prompt's score. */
  function MentionedOne(item: Execution): int { if item.score.Some? && item.score.value.brandMentioned then 1 else 0 }
  function OwnedOne(item: Execution): int { if item.score.Some? && item.score.value.qualifiedOwnedCited then 1 else 0 }
  function CompetitorCount(item: Execution): int { if item.score.Some? then |item.score.value.competitorsMentioned| else 0 }
  function EngineOf(item: Execution): string { item.engine }

  lemma {:induction false} TallyBounds(group: seq<Execution>)
    ensures 0 <= Counting.SumBy(MentionedOne, group) <= |group|
    ensures 0 <= Counting.SumBy(OwnedOne, group) <= |group|
    ensures 0 <= Counting.SumBy(CompetitorCount, group)
    ensures Counting.SumBy(Counting.One, group) == |group|
  {
    if group != [] { TallyBounds(group[1..]); }
  }

  function Mentioned(group: seq<Execution>): nat { TallyBounds(group); Counting.SumBy(MentionedOne, group) }
  function Owned(group: seq<Execution>): nat { TallyBounds(group); Counting.SumBy(OwnedOne, group) }
  function Rivals(group: seq<Execution>): nat { TallyBounds(group); Counting.SumBy(CompetitorCount, group) }

  function MeanOfTwo(a: real, b: real, w: Weights): real
    requires Positive(w)
  {
    (a + b) / (w.visibility + w.owned)
  }

  function MeanOfThree(a: real, b: real, c: real, w: Weights): real
    requires Positive(w)
  {
    (a + b + c) / (w.visibility + w.owned + w.competitive)
  }

  /** The weighted mean of the components that apply. */
  function Blend(visibility: real, owned: real, competitive: real, w: Weights, competitors: bool): real
    requires Positive(w)
  {
    if competitors then
      MeanOfThree(Product(visibility, w.visibility), Product(owned, w.owned), Product(competitive, w.competitive), w)
    else
      MeanOfTwo(Product(visibility, w.visibility), Product(owned, w.owned), w)
  }

  function Composite(group: seq<Execution>, w: Weights, competitors: bool): real
    requires Positive(w)
  {
    var visibility := Rate(Mentioned(group), |group|);
    var owned := Rate(Owned(group), |group|);
    var competitive := Rate(Mentioned(group), Mentioned(group) + Rivals(group));
    Round(Blend(visibility, owned, competitive, w, competitors) * 100.0, 100.0)
  }

  // ----- Bounds -----

  lemma UnitTimes(x: real, w: real)
    requires 0.0 <= x <= 1.0 && w >= 0.0
    ensures 0.0 <= Product(x, w) <= w
  {
    hide Product;
    Units(w);
    Monotone(0.0, x, w);
    Monotone(x, 1.0, w);
  }

  lemma BlendBounds(visibility: real, owned: real, competitive: real, w: Weights, competitors: bool)
    requires Positive(w) && 0.0 <= visibility <= 1.0 && 0.0 <= owned <= 1.0 && 0.0 <= competitive <= 1.0
    ensures 0.0 <= Blend(visibility, owned, competitive, w, competitors) <= 1.0
  {
    hide MeanOfTwo, MeanOfThree, Product;
    UnitTimes(visibility, w.visibility);
    UnitTimes(owned, w.owned);
    UnitTimes(competitive, w.competitive);
    MeanBounds(Product(visibility, w.visibility), Product(owned, w.owned), Product(competitive, w.competitive), w);
  }

  lemma MeanBounds(a: real, b: real, c: real, w: Weights)
    requires Positive(w) && 0.0 <= a <= w.visibility && 0.0 <= b <= w.owned && 0.0 <= c <= w.competitive
    ensures 0.0 <= MeanOfTwo(a, b, w) <= 1.0
    ensures 0.0 <= MeanOfThree(a, b, c, w) <= 1.0
  {
  }

  /** Every composite is a percentage, with or without competitors, even of an empty group. */
  lemma CompositeBounds(group: seq<Execution>, w: Weights, competitors: bool)
    requires Positive(w)
    ensures 0.0 <= Composite(group, w, competitors) <= 100.0
  {
    hide Rate, Blend, Round;
    TallyBounds(group);
    RateBounds(Mentioned(group), |group|);
    RateBounds(Owned(group), |group|);
    RateBounds(Mentioned(group), Mentioned(group) + Rivals(group));
    var visibility, owned := Rate(Mentioned(group), |group|), Rate(Owned(group), |group|);
    var competitive := Rate(Mentioned(group), Mentioned(group) + Rivals(group));
    BlendBounds(visibility, owned, competitive, w, competitors);
    RoundWithin(Blend(visibility, owned, competitive, w, competitors) * 100.0, 0, 10000, 100.0);
  }

  // ----- Engines -----

  function Engines(group: seq<Execution>): set<string> {
    (set item | item in group :: item.engine) - {""}
  }

  function OfEngine(group: seq<Execution>, engine: string): seq<Execution> {
    Counting.Part(EngineOf, engine, group)
  }

  function EngineScores(group: seq<Execution>, w: Weights, competitors: bool): map<string, real>
    requires Positive(w)
  {
    map engine | engine in Engines(group) :: Composite(OfEngine(group, engine), w, competitors)
  }

  function Highest(values: seq<real>): real
    requires values != []
  {
    if |values| == 1 then values[0]
    else if values[0] > Highest(values[1..]) then values[0] else Highest(values[1..])
  }

  function Lowest(values: seq<real>): real
    requires values != []
  {
    if |values| == 1 then values[0]
    else if values[0] < Lowest(values[1..]) then values[0] else Lowest(values[1..])
  }

  function Values(scores: map<string, real>): seq<real> {
    var keys := Ordering.SortedStrings(scores.Keys);
    seq(|keys|, i requires 0 <= i < |keys| => assert keys[i] in keys; scores[keys[i]])
  }

  function Consistency(scores: map<string, real>): real {
    if scores == map[] then 0.0
    else
      var values := Values(scores);
      Round(1.0 - (Highest(values) - Lowest(values)) / 100.0, 10000.0)
  }

  lemma {:induction false} Extremes(values: seq<real>, low: real, high: real)
    requires values != [] && forall i :: 0 <= i < |values| ==> low <= values[i] <= high
    ensures low <= Lowest(values) <= Highest(values) <= high
    ensures forall i :: 0 <= i < |values| ==> Lowest(values) <= values[i] <= Highest(values)
  {
    if |values| > 1 {
      Extremes(values[1..], low, high);
      assert forall i :: 1 <= i < |values| ==> values[i] == values[1..][i - 1];
    }
  }

  lemma ConsistencyOfPercentages(scores: map<string, real>)
    requires forall engine :: engine in scores ==> 0.0 <= scores[engine] <= 100.0
    ensures 0.0 <= Consistency(scores) <= 1.0
  {
    hide Round, Highest, Lowest;
    if scores != map[] {
      var keys, values := Ordering.SortedStrings(scores.Keys), Values(scores);
      assert |values| == |scores.Keys| > 0;
      forall i | 0 <= i < |values| ensures 0.0 <= values[i] <= 100.0 { assert keys[i] in keys; }
      Extremes(values, 0.0, 100.0);
      RoundWithin(1.0 - (Highest(values) - Lowest(values)) / 100.0, 0, 10000, 10000.0);
    }
  }

  /** The cross-engine consistency of a prompt is a fraction, and each engine's score a percentage. */
  lemma ConsistencyBounds(group: seq<Execution>, w: Weights, competitors: bool)
    requires Positive(w)
    ensures forall engine :: engine in EngineScores(group, w, competitors) ==>
              0.0 <= EngineScores(group, w, competitors)[engine] <= 100.0
    ensures 0.0 <= Consistency(EngineScores(group, w, competitors)) <= 1.0
  {
    hide Composite, Consistency;
    var scores := EngineScores(group, w, competitors);
    forall engine | engine in scores ensures 0.0 <= scores[engine] <= 100.0 {
      CompositeBounds(OfEngine(group, engine), w, competitors);
    }
    ConsistencyOfPercentages(scores);
  }

  // ----- The pooled score against its engines -----

  /** The points one mention and one owned citation are worth, out of a hundred. */
  function PerMention(w: Weights): real
    requires Positive(w)
  {
    100.0 * w.visibility / (w.visibility + w.owned)
  }

  function PerOwned(w: Weights): real
    requires Positive(w)
  {
    100.0 * w.owned / (w.visibility + w.owned)
  }

  lemma PointsAddUp(w: Weights)
    requires Positive(w)
    ensures PerMention(w) + PerOwned(w) == 100.0 && PerMention(w) >= 0.0 && PerOwned(w) >= 0.0
  {
  }

  lemma BlendIsPoints(visibility: real, owned: real, w: Weights)
    requires Positive(w)
    ensures Blend(visibility, owned, 0.0, w, false) * 100.0
         == Product(visibility, PerMention(w)) + Product(owned, PerOwned(w))
  {
  }

  lemma BlendIgnoresCompetitors(visibility: real, owned: real, competitive: real, w: Weights)
    requires Positive(w)
    ensures Blend(visibility, owned, competitive, w, false) == Blend(visibility, owned, 0.0, w, false)
  {
  }

  /** The exact points of `m` mentions and `o` owned citations. */
  function Points(m: int, o: int, w: Weights): real
    requires Positive(w)
  {
    Product(m as real, PerMention(w)) + Product(o as real, PerOwned(w))
  }

  lemma PointsAdd(m: int, o: int, m': int, o': int, w: Weights)
    requires Positive(w)
    ensures Points(m + m', o + o', w) == Points(m, o, w) + Points(m', o', w)
  {
  }

  /** A group's exact score: its points over its size. */
  function Exact(m: int, o: int, n: nat, w: Weights): real
    requires Positive(w) && n > 0
  {
    Product(m as real / n as real, PerMention(w)) + Product(o as real / n as real, PerOwned(w))
  }

  lemma AddErrors(c: real, b: real, v: real, o: real, v': real, o': real, p: real, q: real)
    requires -0.005 <= c - b <= 0.005 && b == v + o && p + q == 100.0
    requires -(0.00005 * p) <= v - v' <= 0.00005 * p
    requires -(0.00005 * q) <= o - o' <= 0.00005 * q
    ensures -0.01 <= c - (v' + o') <= 0.01
  {
  }

  /** A group's score is within a hundredth of its exact score. */
  lemma CompositeError(group: seq<Execution>, w: Weights)
    requires Positive(w) && group != []
    ensures -0.01 <= Composite(group, w, false) - Exact(Mentioned(group), Owned(group), |group|, w) <= 0.01
  {
    hide Rate, Blend, Round, PerMention, PerOwned, Mentioned, Owned, Rivals, Product;
    var n := |group| as real;
    var visibility, owned := Rate(Mentioned(group), |group|), Rate(Owned(group), |group|);
    var competitive := Rate(Mentioned(group), Mentioned(group) + Rivals(group));
    BlendIgnoresCompetitors(visibility, owned, competitive, w);
    BlendIsPoints(visibility, owned, w);
    var blend := Blend(visibility, owned, competitive, w, false) * 100.0;
    RoundError(blend, 100.0);
    RateError(Mentioned(group), |group|);
    RateError(Owned(group), |group|);
    PointsAddUp(w);
    Within(visibility, Mentioned(group) as real / n, 0.00005, PerMention(w));
    Within(owned, Owned(group) as real / n, 0.00005, PerOwned(w));
    SmallError(PerMention(w));
    SmallError(PerOwned(w));
    AddErrors(Composite(group, w, false), blend, Product(visibility, PerMention(w)), Product(owned, PerOwned(w)),
              Product(Mentioned(group) as real / n, PerMention(w)), Product(Owned(group) as real / n, PerOwned(w)),
              PerMention(w), PerOwned(w));
  }

  lemma SmallError(b: real)
    ensures Product(0.00005, b) == 0.00005 * b && Product(0.01, b) == 0.01 * b
  {
  }

  /** A score counted once per execution. */
  function Times(x: real, n: nat): real { Product(x, n as real) }

  lemma ExactTimes(m: int, o: int, n: nat, w: Weights)
    requires Positive(w) && n > 0
    ensures Times(Exact(m, o, n, w), n) == Points(m, o, w)
  {
  }

  lemma TimesWithin(x: real, y: real, n: nat)
    requires -0.01 <= x - y <= 0.01
    ensures -(0.01 * n as real) <= Times(x, n) - Times(y, n) <= 0.01 * n as real
  {
    hide Product;
    Within(x, y, 0.01, n as real);
    SmallError(n as real);
  }

  /** The same, weighted by the size of the group. */
  lemma WeightedCompositeError(group: seq<Execution>, w: Weights)
    requires Positive(w) && group != []
    ensures var n := |group|;
            -(0.01 * n as real) <= Times(Composite(group, w, false), n) - Points(Mentioned(group), Owned(group), w)
                                <= 0.01 * n as real
  {
    hide Composite, Exact, Points, Times;
    CompositeError(group, w);
    TimesWithin(Composite(group, w, false), Exact(Mentioned(group), Owned(group), |group|, w), |group|);
    ExactTimes(Mentioned(group), Owned(group), |group|, w);
  }

  /** The engines' scores, each weighted by how many executions the engine has. */
  function WeightedScores(group: seq<Execution>, engines: seq<string>, w: Weights): real
    requires Positive(w)
  {
    if engines == [] then 0.0
    else
      var part := OfEngine(group, engines[0]);
      Times(Composite(part, w, false), |part|) + WeightedScores(group, engines[1..], w)
  }

  function PartTotal(f: Execution -> int, group: seq<Execution>, engines: seq<string>): int {
    Counting.SumBy(Counting.PartSum(EngineOf, f, group), engines)
  }

  lemma PartTotalCons(f: Execution -> int, group: seq<Execution>, engines: seq<string>)
    requires engines != []
    ensures PartTotal(f, group, engines)
         == Counting.SumBy(f, OfEngine(group, engines[0])) + PartTotal(f, group, engines[1..])
  {
  }

  lemma {:induction false} WeightedScoresError(group: seq<Execution>, engines: seq<string>, w: Weights)
    requires Positive(w)
    requires forall engine :: engine in engines ==> OfEngine(group, engine) != []
    ensures var m, o := PartTotal(MentionedOne, group, engines), PartTotal(OwnedOne, group, engines);
            var n := PartTotal(Counting.One, group, engines);
            -(0.01 * n as real) <= WeightedScores(group, engines, w) - Points(m, o, w) <= 0.01 * n as real
  {
    hide Composite, Points, Times, PartTotal, OfEngine;
    if engines == [] {
      NoParts(group, w);
    } else {
      var part, rest := OfEngine(group, engines[0]), engines[1..];
      WeightedScoresError(group, rest, w);
      WeightedCompositeError(part, w);
      TallyBounds(part);
      PartTotalCons(MentionedOne, group, engines);
      PartTotalCons(OwnedOne, group, engines);
      PartTotalCons(Counting.One, group, engines);
      PointsAdd(Mentioned(part), Owned(part),
                PartTotal(MentionedOne, group, rest), PartTotal(OwnedOne, group, rest), w);
    }
  }

  lemma NoParts(group: seq<Execution>, w: Weights)
    requires Positive(w)
    ensures PartTotal(MentionedOne, group, []) == PartTotal(OwnedOne, group, []) == PartTotal(Counting.One, group, []) == 0
    ensures Points(0, 0, w) == 0.0
  {
  }

  lemma EngineHasItems(group: seq<Execution>, engine: string)
    requires engine in Engines(group)
    ensures OfEngine(group, engine) != []
  {
    var item :| item in group && item.engine == engine;
    Counting.FilterKeeps(Counting.KeyIs(EngineOf, engine), group, item);
  }

  lemma EnginePartition(group: seq<Execution>, f: Execution -> int)
    requires forall item :: item in group ==> item.engine != ""
    ensures PartTotal(f, group, Ordering.SortedStrings(Engines(group))) == Counting.SumBy(f, group)
  {
    var engines := Ordering.SortedStrings(Engines(group));
    Ordering.SortedStringsDistinct(Engines(group));
    Counting.PartitionSums(EngineOf, f, engines, group);
  }

  /** Without competitors, when every execution names its engine, the pooled composite differs from the
      repetition-weighted mean of the engines' composites by at most two hundredths of a point, both
      levels of rounding included. */
  lemma PooledNearWeightedMean(group: seq<Execution>, w: Weights)
    requires Positive(w) && group != []
    requires forall item :: item in group ==> item.engine != ""
    ensures var engines := Ordering.SortedStrings(Engines(group));
            -0.02 <= Composite(group, w, false) - WeightedScores(group, engines, w) / |group| as real <= 0.02
  {
    hide Composite, WeightedScores, PartTotal, Points, Times;
    var engines := Ordering.SortedStrings(Engines(group));
    forall engine | engine in engines ensures OfEngine(group, engine) != [] { EngineHasItems(group, engine); }
    WeightedScoresError(group, engines, w);
    WeightedCompositeError(group, w);
    TallyBounds(group);
    EnginePartition(group, MentionedOne);
    EnginePartition(group, OwnedOne);
    EnginePartition(group, Counting.One);
    ByTheSize(Composite(group, w, false), WeightedScores(group, engines, w), |group|);
  }

  lemma ByTheSize(c: real, total: real, n: nat)
    requires n > 0 && -(0.02 * n as real) <= Times(c, n) - total <= 0.02 * n as real
    ensures -0.02 <= c - total / n as real <= 0.02
  {
    hide Product;
    Quotient(total, n as real);
    Difference(c, total / n as real, n as real);
    Bounded(c - total / n as real, n as real);
  }

  lemma Bounded(d: real, n: real)
    requires n > 0.0 && -(0.02 * n) <= Product(d, n) <= 0.02 * n
    ensures -0.02 <= d <= 0.02
  {
  }
}
