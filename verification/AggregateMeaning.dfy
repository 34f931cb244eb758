/** What the numbers of a run aggregate mean, counted execution by execution. */
module AggregateMeaning {
  import opened Options
  import opened Executions
  import opened Rounding
  import opened RunAggregation
  import Counting
  import Ordering

  predicate NearOrNone(rate: Option<real>, part: nat, whole: nat) {
    if whole == 0 then rate == None else rate.Some? && Near(rate.value, part, whole)
  }

  ghost predicate Scored(rows: seq<Execution>) {
    forall i :: 0 <= i < |rows| ==> rows[i].score.Some?
  }

  // ----- Which rows are read -----

  /** The rows read are those completed with a score, each as often as it occurs. */
  lemma CompletedAre(rows: seq<Execution>, e: Execution)
    ensures Scored(Completed(rows))
    ensures multiset(Completed(rows))[e] == if e.status == "completed" && e.score.Some? then multiset(rows)[e] else 0
  {
    Counting.FilterMultiplicity(IsCompleted, rows, e);
  }

  lemma SignalCount(p: Score -> bool, rows: seq<Execution>, at: set<int>)
    requires at == set i | 0 <= i < |rows| && rows[i].score.Some? && p(rows[i].score.value)
    ensures CountSignal(p, rows) == |at|
  {
    Counting.PositionsCount(Signal(p), rows);
    assert Counting.Positions(Signal(p), rows) == at;
  }

  // ----- Headline rates -----

  // The positions of the executions that carry each signal.

  function BrandAt(rows: seq<Execution>): set<int> {
    set i | 0 <= i < |rows| && rows[i].score.Some? && rows[i].score.value.brandMentioned
  }

  function OwnedAt(rows: seq<Execution>): set<int> {
    set i | 0 <= i < |rows| && rows[i].score.Some? && rows[i].score.value.ownedDomainCited
  }

  function BothAt(rows: seq<Execution>): set<int> {
    set i | 0 <= i < |rows| && rows[i].score.Some? && rows[i].score.value.brandMentioned
      && rows[i].score.value.ownedDomainCited
  }

  function SearchAt(rows: seq<Execution>): set<int> {
    set i | 0 <= i < |rows| && rows[i].score.Some? && rows[i].score.value.searchUsed
  }

  function UnintendedAt(rows: seq<Execution>): set<int> {
    set i | 0 <= i < |rows| && rows[i].score.Some? && rows[i].score.value.unintendedCited
  }

  function QueryAt(rows: seq<Execution>): set<int> {
    set i | 0 <= i < |rows| && rows[i].score.Some? && rows[i].score.value.queryTextAvailable
  }

  function RivalInjectedAt(rows: seq<Execution>): set<int> {
    set i | 0 <= i < |rows| && rows[i].score.Some? && rows[i].score.value.queryTextAvailable
      && rows[i].score.value.competitorsInjected
  }

  function OrganicQueryAt(rows: seq<Execution>): set<int> {
    set i | 0 <= i < |rows| && rows[i].score.Some? && rows[i].score.value.promptClass == "non_branded"
      && rows[i].score.value.queryTextAvailable
  }

  function OrganicInjectedAt(rows: seq<Execution>): set<int> {
    set i | 0 <= i < |rows| && rows[i].score.Some? && rows[i].score.value.promptClass == "non_branded"
      && rows[i].score.value.queryTextAvailable && rows[i].score.value.brandInjected
  }

  lemma SignalsAreAt(rows: seq<Execution>)
    ensures CountSignal(Mentioned, rows) == |BrandAt(rows)|
    ensures CountSignal(OwnedCited, rows) == |OwnedAt(rows)|
    ensures CountSignal(MentionedAndOwned, rows) == |BothAt(rows)|
    ensures CountSignal(SearchUsed, rows) == |SearchAt(rows)|
    ensures CountSignal(Unintended, rows) == |UnintendedAt(rows)|
    ensures CountSignal(QueryKnown, rows) == |QueryAt(rows)|
    ensures CountSignal(CompetitorInjected, rows) == |RivalInjectedAt(rows)|
    ensures CountSignal(OrganicQueryKnown, rows) == |OrganicQueryAt(rows)|
    ensures CountSignal(OrganicInjected, rows) == |OrganicInjectedAt(rows)|
  {
    hide CountSignal;
    SignalCount(Mentioned, rows, BrandAt(rows));
    SignalCount(OwnedCited, rows, OwnedAt(rows));
    SignalCount(MentionedAndOwned, rows, BothAt(rows));
    SignalCount(SearchUsed, rows, SearchAt(rows));
    SignalCount(Unintended, rows, UnintendedAt(rows));
    SignalCount(QueryKnown, rows, QueryAt(rows));
    SignalCount(CompetitorInjected, rows, RivalInjectedAt(rows));
    SignalCount(OrganicQueryKnown, rows, OrganicQueryAt(rows));
    SignalCount(OrganicInjected, rows, OrganicInjectedAt(rows));
  }

  function QueriesMade(rows: seq<Execution>): nat {
    if rows == [] then 0
    else (if rows[0].score.Some? then rows[0].score.value.queryCount else 0) + QueriesMade(rows[1..])
  }

  lemma {:induction false} QueriesAreMade(rows: seq<Execution>)
    ensures Counting.SumBy(Queries, rows) == QueriesMade(rows)
  {
    if rows != [] { QueriesAreMade(rows[1..]); }
  }

  /** Each headline rate is the share of the executions it speaks of, to four places; the rates over executions with
      known queries have only those in their denominator, and are missing without any. */
  lemma HeadlineMeans(rows: seq<Execution>)
    ensures var (h, n) := (HeadlineOf(rows), |rows|);
            && Near(h.brandMentionRate, |BrandAt(rows)|, n)
            && Near(h.ownedCitationRate, |OwnedAt(rows)|, n)
            && Near(h.mentionToOwnedConversion, |BothAt(rows)|, |BrandAt(rows)|)
            && Near(h.searchUseRate, |SearchAt(rows)|, n)
            && Near(h.unintendedCitationRate, |UnintendedAt(rows)|, n)
            && Near(h.queryTextCoverageRate, |QueryAt(rows)|, n)
            && NearOrNone(h.brandFanoutInjectionRate, |OrganicInjectedAt(rows)|, |OrganicQueryAt(rows)|)
            && NearOrNone(h.competitorFanoutInjectionRate, |RivalInjectedAt(rows)|, |QueryAt(rows)|)
    ensures if rows == [] then HeadlineOf(rows).avgQueries == 0.0
            else -0.005 <= HeadlineOf(rows).avgQueries - QueriesMade(rows) as real / |rows| as real <= 0.005
  {
    hide Rate, CountSignal, Round, Near, BrandAt, OwnedAt, BothAt, SearchAt, UnintendedAt, QueryAt, RivalInjectedAt,
      OrganicQueryAt, OrganicInjectedAt;
    SignalsAreAt(rows);
    QueriesAreMade(rows);
    RateIsNear(|BrandAt(rows)|, |rows|);
    RateIsNear(|OwnedAt(rows)|, |rows|);
    RateIsNear(|BothAt(rows)|, |BrandAt(rows)|);
    RateIsNear(|SearchAt(rows)|, |rows|);
    RateIsNear(|UnintendedAt(rows)|, |rows|);
    RateIsNear(|QueryAt(rows)|, |rows|);
    RateIsNear(|OrganicInjectedAt(rows)|, |OrganicQueryAt(rows)|);
    RateIsNear(|RivalInjectedAt(rows)|, |QueryAt(rows)|);
    if rows != [] { RoundError(QueriesMade(rows) as real / |rows| as real, 100.0); }
  }

  // ----- Brand and competitors -----

  /** Each competitor counts where its name is among those mentioned, or among those cited, in an execution; the
      brand counts where it is mentioned, unless a competitor has its name. Nobody else is listed. */
  lemma CompetitorsMean(rows: seq<Execution>, config: Config, name: string)
    ensures var (a, completed) := (AggregateRun(rows, config), Completed(rows));
            && (name in a.mentionCounts <==>
                  name in config.competitors || name == (if config.brand == "" then "Brand" else config.brand))
            && (name in config.competitors ==>
                  && a.mentionCounts[name]
                     == |set i | 0 <= i < |completed| && completed[i].score.Some?
                                 && name in completed[i].score.value.competitorsMentioned|
                  && name in a.rivalMentionRates && name in a.rivalCitationRates
                  && Near(a.rivalMentionRates[name],
                          |set i | 0 <= i < |completed| && completed[i].score.Some?
                                   && name in completed[i].score.value.competitorsMentioned|, |completed|)
                  && Near(a.rivalCitationRates[name],
                          |set i | 0 <= i < |completed| && completed[i].score.Some?
                                   && name in completed[i].score.value.competitorDomainsCited|, |completed|))
            && (name in a.mentionCounts && name !in config.competitors ==>
                  a.mentionCounts[name]
                  == |set i | 0 <= i < |completed| && completed[i].score.Some? && completed[i].score.value.brandMentioned|)
  {
    hide Rate, CountSignal, Near, HeadlineOf, TokenTotals, Completed;
    var completed := Completed(rows);
    SignalCount(MentionsRival(name), completed,
                set i | 0 <= i < |completed| && completed[i].score.Some?
                        && name in completed[i].score.value.competitorsMentioned);
    SignalCount(CitesRival(name), completed,
                set i | 0 <= i < |completed| && completed[i].score.Some?
                        && name in completed[i].score.value.competitorDomainsCited);
    SignalCount(Mentioned, completed,
                set i | 0 <= i < |completed| && completed[i].score.Some? && completed[i].score.value.brandMentioned);
    RateIsNear(CountSignal(MentionsRival(name), completed), |completed|);
    RateIsNear(CountSignal(CitesRival(name), completed), |completed|);
  }

  // ----- Tokens -----

  /** Tokens are added up over the completed rows with a score, and over no others. */
  lemma TokensMean(rows: seq<Execution>, e: Execution, config: Config)
    ensures AggregateRun([], config).tokens == Usage(0, 0, 0, 0)
    ensures var (before, after) := (AggregateRun(rows, config).tokens, AggregateRun(rows + [e], config).tokens);
            if e.status == "completed" && e.score.Some? then
              after == Usage(before.uncachedInput + e.usage.uncachedInput, before.cachedInput + e.usage.cachedInput,
                             before.output + e.usage.output, before.total + e.usage.total)
            else after == before
  {
    hide HeadlineOf, MentionCounts, RivalRates;
    Counting.FilterAppend(IsCompleted, rows, [e]);
    assert [e][1..] == [];
    if IsCompleted(e) {
      assert Counting.Filter(IsCompleted, [e]) == [e] + [] == [e];
      TokensAppend(Completed(rows), e);
    } else {
      assert Completed(rows) + [] == Completed(rows);
    }
  }

  // ----- Cohorts and engines -----

  /** The completed rows of some cohorts. */
  function CohortAt(rows: seq<Execution>, cohorts: set<string>): set<int> {
    set i | 0 <= i < |rows| && rows[i].status == "completed" && rows[i].score.Some? && rows[i].cohort in cohorts
  }

  /** Those of one engine. */
  function CohortEngineAt(rows: seq<Execution>, cohorts: set<string>, engine: string): set<int> {
    set i | 0 <= i < |rows| && rows[i].status == "completed" && rows[i].score.Some? && rows[i].cohort in cohorts
      && rows[i].engine == engine
  }

  function Both(p: Execution -> bool, q: Execution -> bool): Execution -> bool { (e: Execution) => p(e) && q(e) }

  lemma {:induction false} FiltersTogether(p: Execution -> bool, q: Execution -> bool, rows: seq<Execution>)
    ensures Counting.Filter(p, Counting.Filter(q, rows)) == Counting.Filter(Both(p, q), rows)
  {
    if rows != [] {
      FiltersTogether(p, q, rows[1..]);
      var kept := Counting.Filter(q, rows[1..]);
      if q(rows[0]) {
        assert Counting.Filter(q, rows) == [rows[0]] + kept && ([rows[0]] + kept)[1..] == kept;
      } else {
        assert Counting.Filter(q, rows) == [] + kept == kept;
        assert [] + Counting.Filter(Both(p, q), rows[1..]) == Counting.Filter(Both(p, q), rows[1..]);
      }
    }
  }

  lemma Kept(p: Execution -> bool, rows: seq<Execution>)
    ensures |Counting.Filter(p, rows)| == |Counting.Positions(p, rows)|
  {
    Counting.FilterSums(p, Counting.One, rows);
    Counting.PositionsCount(p, rows);
  }

  lemma CohortCompleted(rows: seq<Execution>, cohorts: set<string>)
    ensures |Completed(Counting.Filter(InCohorts(cohorts), rows))| == |CohortAt(rows, cohorts)|
  {
    FiltersTogether(IsCompleted, InCohorts(cohorts), rows);
    Kept(Both(IsCompleted, InCohorts(cohorts)), rows);
    assert Counting.Positions(Both(IsCompleted, InCohorts(cohorts)), rows) == CohortAt(rows, cohorts);
  }

  lemma CohortEngineCompleted(rows: seq<Execution>, cohorts: set<string>, engine: string)
    ensures |Completed(Counting.Filter(InCohorts(cohorts), OfEngine(rows, engine)))| == |CohortEngineAt(rows, cohorts, engine)|
  {
    var q: Execution -> bool := Counting.KeyIs(EngineOf, engine);
    var p := Both(IsCompleted, InCohorts(cohorts));
    FiltersTogether(IsCompleted, InCohorts(cohorts), OfEngine(rows, engine));
    FiltersTogether(p, q, rows);
    Kept(Both(p, q), rows);
    assert Counting.Positions(Both(p, q), rows) == CohortEngineAt(rows, cohorts, engine) by {
      forall i | 0 <= i < |rows| ensures Both(p, q)(rows[i]) <==> i in CohortEngineAt(rows, cohorts, engine) {
        assert q(rows[i]) <==> EngineOf(rows[i]) == engine;
      }
    }
  }

  /** The aggregate of some cohorts reads the completed rows of those cohorts, and that of an engine those of the
      engine: its completed count is theirs. */
  lemma CohortAggregatesRead(rows: seq<Execution>, config: Config, cohorts: set<string>, engine: string)
    ensures CohortAggregate(rows, config, cohorts).totalCompleted == |CohortAt(rows, cohorts)|
    ensures EngineAggregate(rows, config, cohorts, engine).totalCompleted == |CohortEngineAt(rows, cohorts, engine)|
  {
    hide HeadlineOf, MentionCounts, RivalRates, TokenTotals, Completed, CohortAt, CohortEngineAt;
    CohortCompleted(rows, cohorts);
    CohortEngineCompleted(rows, cohorts, engine);
  }
}
