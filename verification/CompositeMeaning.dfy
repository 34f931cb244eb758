/** What a prompt's score says: how near it is to the exact weighted mean, and which way each signal moves it. */
module CompositeMeaning {
  import opened Executions
  import opened Products
  import opened Rounding
  import opened PromptComposite
  import Counting
  import Ordering

  // ----- The counts behind the score -----

  function MentionsBrand(): Execution -> bool { (e: Execution) => e.score.Some? && e.score.value.brandMentioned }
  function CitesOwned(): Execution -> bool { (e: Execution) => e.score.Some? && e.score.value.qualifiedOwnedCited }

  lemma {:induction false} TalliesAreCounted(group: seq<Execution>)
    ensures Mentioned(group) == Counting.CountIf(MentionsBrand(), group)
    ensures Owned(group) == Counting.CountIf(CitesOwned(), group)
  {
    if group != [] { TalliesAreCounted(group[1..]); }
  }

  /** The executions that mention the brand, and those with a qualified owned citation, are counted one by one;
      every rival named in an execution counts. */
  lemma TalliesAre(group: seq<Execution>, e: Execution)
    ensures Mentioned(group) == |set i | 0 <= i < |group| && group[i].score.Some? && group[i].score.value.brandMentioned|
    ensures Owned(group) == |set i | 0 <= i < |group| && group[i].score.Some? && group[i].score.value.qualifiedOwnedCited|
    ensures Rivals([]) == 0
    ensures Rivals(group + [e]) == Rivals(group) + (if e.score.Some? then |e.score.value.competitorsMentioned| else 0)
  {
    TalliesAreCounted(group);
    Counting.PositionsCount(MentionsBrand(), group);
    Counting.PositionsCount(CitesOwned(), group);
    assert Counting.Positions(MentionsBrand(), group)
        == set i | 0 <= i < |group| && group[i].score.Some? && group[i].score.value.brandMentioned;
    assert Counting.Positions(CitesOwned(), group)
        == set i | 0 <= i < |group| && group[i].score.Some? && group[i].score.value.qualifiedOwnedCited;
    Counting.SumByAppend(CompetitorCount, group, [e]);
    Counting.SumByOne(CompetitorCount, e);
  }

  // ----- With competitors: near the exact weighted mean -----

  /** The part of the whole, nothing of nothing. */
  function Fraction(part: nat, whole: nat): real {
    if whole == 0 then 0.0 else part as real / whole as real
  }

  /** The exact score, out of a hundred, of `m` mentions, `o` owned citations and `r` rivals named in `n` executions. */
  function ExactWithRivals(m: nat, o: nat, r: nat, n: nat, w: Weights): real
    requires Positive(w) && n > 0
  {
    (Product(m as real / n as real, w.visibility) + Product(o as real / n as real, w.owned)
     + Product(Fraction(m, m + r), w.competitive))
    * 100.0 / (w.visibility + w.owned + w.competitive)
  }

  lemma FractionError(part: nat, whole: nat)
    ensures -0.00005 <= Rate(part, whole) - Fraction(part, whole) <= 0.00005
  {
    if whole > 0 { RateError(part, whole); }
  }

  lemma ThreeErrors(v: real, o: real, c: real, v': real, o': real, c': real, w: Weights)
    requires Positive(w)
    requires -0.00005 <= v - v' <= 0.00005 && -0.00005 <= o - o' <= 0.00005 && -0.00005 <= c - c' <= 0.00005
    ensures var (a, b) := (Product(v, w.visibility) + Product(o, w.owned) + Product(c, w.competitive),
                           Product(v', w.visibility) + Product(o', w.owned) + Product(c', w.competitive));
            var total := w.visibility + w.owned + w.competitive;
            -(0.00005 * total) <= a - b <= 0.00005 * total
  {
    hide Product;
    Within(v, v', 0.00005, w.visibility);
    Within(o, o', 0.00005, w.owned);
    Within(c, c', 0.00005, w.competitive);
    SmallError(w.visibility);
    SmallError(w.owned);
    SmallError(w.competitive);
  }

  lemma ErrorOverTotal(a: real, b: real, total: real)
    requires total > 0.0 && -(0.00005 * total) <= a - b <= 0.00005 * total
    ensures -0.005 <= a / total * 100.0 - b * 100.0 / total <= 0.005
  {
    hide Product;
    var x, y := a / total, b / total;
    Quotient(a, total);
    Quotient(b, total);
    Difference(x, y, total);
    Bounded(x - y, total);
    HundredTimes(b, total);
  }

  lemma HundredTimes(b: real, total: real)
    requires total > 0.0
    ensures b * 100.0 / total == b / total * 100.0
  {
  }

  lemma Bounded(d: real, total: real)
    requires total > 0.0 && -(0.00005 * total) <= Product(d, total) <= 0.00005 * total
    ensures -0.00005 <= d <= 0.00005
  {
    if d > 0.00005 { StrictlyMore(0.00005, d, total); }
    if d < -0.00005 { StrictlyMore(d, -0.00005, total); }
  }

  lemma StrictlyMore(x: real, y: real, b: real)
    requires x < y && b > 0.0
    ensures Product(x, b) < Product(y, b)
  {
    assert (y - x) * b > 0.0;
    Difference(y, x, b);
  }

  /** With competitors configured, a score is within a hundredth of the exact weighted mean of the mention rate, the
      owned-citation rate and the brand's share of all mentions. */
  lemma CompetitiveError(group: seq<Execution>, w: Weights)
    requires Positive(w) && group != []
    ensures -0.01 <= Composite(group, w, true)
                     - ExactWithRivals(Mentioned(group), Owned(group), Rivals(group), |group|, w) <= 0.01
  {
    hide Rate, Round, Product, Mentioned, Owned, Rivals;
    var m, o, r, n := Mentioned(group), Owned(group), Rivals(group), |group|;
    var visibility, owned, competitive := Rate(m, n), Rate(o, n), Rate(m, m + r);
    FractionError(m, n);
    FractionError(o, n);
    FractionError(m, m + r);
    ThreeErrors(visibility, owned, competitive, Fraction(m, n), Fraction(o, n), Fraction(m, m + r), w);
    var total := w.visibility + w.owned + w.competitive;
    var a := Product(visibility, w.visibility) + Product(owned, w.owned) + Product(competitive, w.competitive);
    var b := Product(Fraction(m, n), w.visibility) + Product(Fraction(o, n), w.owned)
             + Product(Fraction(m, m + r), w.competitive);
    ErrorOverTotal(a, b, total);
    RoundError(a / total * 100.0, 100.0);
  }

  // ----- Which way each signal moves a score -----

  lemma MoreOfLess(m: nat, r: nat, m': nat, r': nat)
    requires m <= m' && r >= r'
    ensures Fraction(m, m + r) <= Fraction(m', m' + r')
  {
    if m > 0 {
      CrossMultiply(m, r, m', r');
      var a, b := (m + r) as real, (m' + r') as real;
      Quotients(m as real, a, m' as real, b);
    } else if m' + r' > 0 {
      assert 0.0 / (m' + r') as real <= m' as real / (m' + r') as real;
    }
  }

  lemma CrossMultiply(m: nat, r: nat, m': nat, r': nat)
    requires m <= m' && r >= r'
    ensures m as real * (m' + r') as real <= m' as real * (m + r) as real
  {
    assert m * r' <= m' * r;
    assert m * (m' + r') == m * m' + m * r' && m' * (m + r) == m' * m + m' * r;
    assert (m * (m' + r')) as real == m as real * (m' + r') as real;
    assert (m' * (m + r)) as real == m' as real * (m + r) as real;
  }

  lemma Quotients(x: real, a: real, y: real, b: real)
    requires a > 0.0 && b > 0.0 && x * b <= y * a
    ensures x / a <= y / b
  {
    if x / a > y / b {
      StrictlyMore(y / b, x / a, b);
      Quotient(y, b);
      StrictlyMore(y, Product(x / a, b), a);
      Quotient(x, a);
      Reorder(x, a, b);
    }
  }

  lemma Reorder(x: real, a: real, b: real)
    requires a > 0.0
    ensures Product(Product(x / a, b), a) == x * b
  {
  }

  lemma RateOfMore(m: nat, r: nat, m': nat, r': nat)
    requires m <= m' && r >= r'
    ensures Rate(m, m + r) <= Rate(m', m' + r')
  {
    hide Fraction;
    MoreOfLess(m, r, m', r');
    RateIsRoundedFraction(m, m + r);
    RateIsRoundedFraction(m', m' + r');
    RoundMonotone(Fraction(m, m + r), Fraction(m', m' + r'), 10000.0);
  }

  lemma RateIsRoundedFraction(part: nat, whole: nat)
    ensures Rate(part, whole) == Round(Fraction(part, whole), 10000.0)
  {
    if whole == 0 { RoundExact(0, 10000.0); }
  }

  lemma RateOfSame(m: nat, m': nat, n: nat)
    requires m <= m'
    ensures Rate(m, n) <= Rate(m', n)
  {
    if n > 0 {
      ScaleDown(m as real, m' as real, n as real);
      RoundMonotone(m as real / n as real, m' as real / n as real, 10000.0);
    }
  }

  lemma BlendMonotone(v: real, o: real, c: real, v': real, o': real, c': real, w: Weights, competitors: bool)
    requires Positive(w) && v <= v' && o <= o' && c <= c'
    ensures Blend(v, o, c, w, competitors) <= Blend(v', o', c', w, competitors)
  {
    hide Product;
    Monotone(v, v', w.visibility);
    Monotone(o, o', w.owned);
    Monotone(c, c', w.competitive);
    ScaleDown(Product(v, w.visibility) + Product(o, w.owned), Product(v', w.visibility) + Product(o', w.owned),
              w.visibility + w.owned);
    ScaleDown(Product(v, w.visibility) + Product(o, w.owned) + Product(c, w.competitive),
              Product(v', w.visibility) + Product(o', w.owned) + Product(c', w.competitive),
              w.visibility + w.owned + w.competitive);
  }

  /** Of two groups of one size, the one with no fewer mentions, no fewer owned citations and no more rivals named
      scores no lower. */
  lemma CompositeMonotone(group: seq<Execution>, better: seq<Execution>, w: Weights, competitors: bool)
    requires Positive(w) && |group| == |better|
    requires Mentioned(group) <= Mentioned(better) && Owned(group) <= Owned(better) && Rivals(group) >= Rivals(better)
    ensures Composite(group, w, competitors) <= Composite(better, w, competitors)
  {
    hide Rate, Round, Blend, Mentioned, Owned, Rivals;
    var n := |group|;
    RateOfSame(Mentioned(group), Mentioned(better), n);
    RateOfSame(Owned(group), Owned(better), n);
    RateOfMore(Mentioned(group), Rivals(group), Mentioned(better), Rivals(better));
    var b := Blend(Rate(Mentioned(group), n), Rate(Owned(group), n),
                   Rate(Mentioned(group), Mentioned(group) + Rivals(group)), w, competitors);
    var b' := Blend(Rate(Mentioned(better), n), Rate(Owned(better), n),
                    Rate(Mentioned(better), Mentioned(better) + Rivals(better)), w, competitors);
    BlendMonotone(Rate(Mentioned(group), n), Rate(Owned(group), n),
                  Rate(Mentioned(group), Mentioned(group) + Rivals(group)),
                  Rate(Mentioned(better), n), Rate(Owned(better), n),
                  Rate(Mentioned(better), Mentioned(better) + Rivals(better)), w, competitors);
    RoundMonotone(b * 100.0, b' * 100.0, 100.0);
  }

  function WithScore(e: Execution, score: Score): Execution
    requires e.score.Some?
  {
    e.(score := e.score.(value := score))
  }

  /** Naming one more rival in an execution never raises the score. */
  lemma NamingARivalNeverHelps(group: seq<Execution>, k: nat, name: string, w: Weights, competitors: bool)
    requires Positive(w) && k < |group| && group[k].score.Some?
    ensures var score := group[k].score.value;
            var named := WithScore(group[k], score.(competitorsMentioned := score.competitorsMentioned + [name]));
            Composite(group[k := named], w, competitors) <= Composite(group, w, competitors)
  {
    hide Composite;
    var score := group[k].score.value;
    var named := WithScore(group[k], score.(competitorsMentioned := score.competitorsMentioned + [name]));
    ChangedTallies(group, k, named);
    CompositeMonotone(group[k := named], group, w, competitors);
  }

  /** Mentioning the brand in one more execution never lowers it, and nor does one more owned citation. */
  lemma MentionsNeverHurt(group: seq<Execution>, k: nat, w: Weights, competitors: bool)
    requires Positive(w) && k < |group| && group[k].score.Some?
    ensures Composite(group[k := WithScore(group[k], group[k].score.value.(brandMentioned := true))], w, competitors)
         >= Composite(group, w, competitors)
    ensures Composite(group[k := WithScore(group[k], group[k].score.value.(qualifiedOwnedCited := true))], w, competitors)
         >= Composite(group, w, competitors)
  {
    hide Composite;
    var mentioned := WithScore(group[k], group[k].score.value.(brandMentioned := true));
    var cited := WithScore(group[k], group[k].score.value.(qualifiedOwnedCited := true));
    ChangedTallies(group, k, mentioned);
    ChangedTallies(group, k, cited);
    CompositeMonotone(group, group[k := mentioned], w, competitors);
    CompositeMonotone(group, group[k := cited], w, competitors);
  }

  lemma ChangedTallies(group: seq<Execution>, k: nat, e: Execution)
    requires k < |group|
    ensures Mentioned(group[k := e]) == Mentioned(group) - MentionedOne(group[k]) + MentionedOne(e)
    ensures Owned(group[k := e]) == Owned(group) - OwnedOne(group[k]) + OwnedOne(e)
    ensures Rivals(group[k := e]) == Rivals(group) - CompetitorCount(group[k]) + CompetitorCount(e)
  {
    Counting.SumByUpdate(MentionedOne, group, k, e);
    Counting.SumByUpdate(OwnedOne, group, k, e);
    Counting.SumByUpdate(CompetitorCount, group, k, e);
  }

  // ----- The engines' scores and their consistency -----

  /** The engines scored are those some execution names, each on its own executions and no others. */
  lemma EngineScoresAre(group: seq<Execution>, w: Weights, competitors: bool, engine: string)
    requires Positive(w)
    ensures engine in EngineScores(group, w, competitors) <==>
              engine != "" && exists i :: 0 <= i < |group| && group[i].engine == engine
    ensures engine in EngineScores(group, w, competitors) ==>
              exists own: seq<Execution> ::
                && EngineScores(group, w, competitors)[engine] == Composite(own, w, competitors)
                && forall e :: multiset(own)[e] == if e.engine == engine then multiset(group)[e] else 0
  {
    hide Composite;
    var own := OfEngine(group, engine);
    forall e: Execution ensures multiset(own)[e] == if e.engine == engine then multiset(group)[e] else 0 {
      var p: Execution -> bool := Counting.KeyIs(EngineOf, engine);
      Counting.FilterMultiplicity(p, group, e);
      assert own == Counting.Filter(p, group);
      assert p(e) <==> EngineOf(e) == engine;
    }
    if engine in EngineScores(group, w, competitors) {
      var e :| e in group && e.engine == engine;
      assert EngineScores(group, w, competitors)[engine] == Composite(own, w, competitors);
    }
    if i :| 0 <= i < |group| && group[i].engine == engine {
      assert group[i] in group;
    }
  }

  /** Consistency is one less the spread between the best and the worst engine, in hundredths, to four places; it is
      nothing without engines. */
  lemma ConsistencyIs(scores: map<string, real>, best: string, worst: string)
    requires best in scores && worst in scores
    requires forall engine :: engine in scores ==> scores[worst] <= scores[engine] <= scores[best]
    ensures -0.00005 <= Consistency(scores) - (1.0 - (scores[best] - scores[worst]) / 100.0) <= 0.00005
    ensures Consistency(map[]) == 0.0
  {
    hide Round, Highest, Lowest;
    var keys, values := Ordering.SortedStrings(scores.Keys), Values(scores);
    forall i | 0 <= i < |values| ensures scores[worst] <= values[i] <= scores[best] { assert keys[i] in keys; }
    var b :| 0 <= b < |keys| && keys[b] == best;
    var a :| 0 <= a < |keys| && keys[a] == worst;
    assert values[b] == scores[best] && values[a] == scores[worst];
    Extremes(values, scores[worst], scores[best]);
    RoundError(1.0 - (Highest(values) - Lowest(values)) / 100.0, 10000.0);
  }
}
