/** Run-level aggregation of completed executions: headline rates, mention counts, competitor rates, tokens. */
module RunAggregation {
  import opened Options
  import opened Executions
  import opened Rounding
  import Ordering
  import Counting

  // ----- The completed executions -----

  predicate IsCompleted(e: Execution) { e.score.Some? && e.status == "completed" }

  function Completed(rows: seq<Execution>): seq<Execution> { Counting.Filter(IsCompleted, rows) }

  /** A signal of a completed execution. */
  function Signal(p: Score -> bool): Execution -> bool {
    (e: Execution) => e.score.Some? && p(e.score.value)
  }

  function CountSignal(p: Score -> bool, completed: seq<Execution>): nat {
    Counting.CountIf(Signal(p), completed)
  }

  // ----- Headline rates -----

  datatype Headline = Headline(
    brandMentionRate: real,
    ownedCitationRate: real,
    mentionToOwnedConversion: real,
    brandFanoutInjectionRate: Option<real>,
    queryTextCoverageRate: real,
    competitorFanoutInjectionRate: Option<real>,
    searchUseRate: real,
    avgQueries: real,
    unintendedCitationRate: real)

  predicate Mentioned(s: Score) { s.brandMentioned }
  predicate OwnedCited(s: Score) { s.ownedDomainCited }
  predicate MentionedAndOwned(s: Score) { s.brandMentioned && s.ownedDomainCited }
  predicate QueryKnown(s: Score) { s.queryTextAvailable }
  predicate OrganicQueryKnown(s: Score) { s.promptClass == "non_branded" && s.queryTextAvailable }
  predicate OrganicInjected(s: Score) { OrganicQueryKnown(s) && s.brandInjected }
  predicate CompetitorInjected(s: Score) { s.queryTextAvailable && s.competitorsInjected }
  predicate SearchUsed(s: Score) { s.searchUsed }
  predicate Unintended(s: Score) { s.unintendedCited }

  function Queries(e: Execution): int { if e.score.Some? then e.score.value.queryCount else 0 }

  function OptionalRate(numerator: nat, denominator: nat): Option<real> {
    if denominator == 0 then None else Some(Rate(numerator, denominator))
  }

  function HeadlineOf(completed: seq<Execution>): Headline {
    var total := |completed|;
    Headline(
      Rate(CountSignal(Mentioned, completed), total),
      Rate(CountSignal(OwnedCited, completed), total),
      Rate(CountSignal(MentionedAndOwned, completed), CountSignal(Mentioned, completed)),
      OptionalRate(CountSignal(OrganicInjected, completed), CountSignal(OrganicQueryKnown, completed)),
      Rate(CountSignal(QueryKnown, completed), total),
      OptionalRate(CountSignal(CompetitorInjected, completed), CountSignal(QueryKnown, completed)),
      Rate(CountSignal(SearchUsed, completed), total),
      if total == 0 then 0.0 else Round(Counting.SumBy(Queries, completed) as real / total as real, 100.0),
      Rate(CountSignal(Unintended, completed), total))
  }

  lemma CountImplied(p: Score -> bool, q: Score -> bool, completed: seq<Execution>)
    requires forall s :: p(s) ==> q(s)
    ensures CountSignal(p, completed) <= CountSignal(q, completed) <= |completed|
  {
    forall e | Signal(p)(e) ensures Signal(q)(e) { assert p(e.score.value); }
    Counting.CountIfImplied(Signal(p), Signal(q), completed);
  }

  predicate UnitOption(r: Option<real>) { r.Some? ==> 0.0 <= r.value <= 1.0 }

  /** Every headline rate is a fraction. */
  lemma HeadlineBounds(completed: seq<Execution>)
    ensures var h := HeadlineOf(completed);
            && 0.0 <= h.brandMentionRate <= 1.0 && 0.0 <= h.ownedCitationRate <= 1.0
            && 0.0 <= h.mentionToOwnedConversion <= 1.0 && UnitOption(h.brandFanoutInjectionRate)
            && 0.0 <= h.queryTextCoverageRate <= 1.0 && UnitOption(h.competitorFanoutInjectionRate)
            && 0.0 <= h.searchUseRate <= 1.0 && 0.0 <= h.unintendedCitationRate <= 1.0
  {
    hide Rate, CountSignal, Round;
    CountImplied(MentionedAndOwned, Mentioned, completed);
    CountImplied(OrganicInjected, OrganicQueryKnown, completed);
    CountImplied(CompetitorInjected, QueryKnown, completed);
    CountImplied(OwnedCited, OwnedCited, completed);
    CountImplied(SearchUsed, SearchUsed, completed);
    CountImplied(Unintended, Unintended, completed);
    RateBounds(CountSignal(Mentioned, completed), |completed|);
    RateBounds(CountSignal(OwnedCited, completed), |completed|);
    RateBounds(CountSignal(MentionedAndOwned, completed), CountSignal(Mentioned, completed));
    RateBounds(CountSignal(OrganicInjected, completed), CountSignal(OrganicQueryKnown, completed));
    RateBounds(CountSignal(QueryKnown, completed), |completed|);
    RateBounds(CountSignal(CompetitorInjected, completed), CountSignal(QueryKnown, completed));
    RateBounds(CountSignal(SearchUsed, completed), |completed|);
    RateBounds(CountSignal(Unintended, completed), |completed|);
  }

  // ----- Competitors and share of voice -----

  function MentionsRival(name: string): Score -> bool { (s: Score) => name in s.competitorsMentioned }
  function CitesRival(name: string): Score -> bool { (s: Score) => name in s.competitorDomainsCited }

  function RivalRates(signal: string -> (Score -> bool), names: seq<string>, completed: seq<Execution>): map<string, real> {
    map name | name in names :: Rate(CountSignal(signal(name), completed), |completed|)
  }

  function RivalMentions(names: seq<string>, completed: seq<Execution>): map<string, nat> {
    map name | name in names :: CountSignal(MentionsRival(name), completed)
  }

  /** The mention count of every entity; a competitor that shares the brand's name takes its place. */
  function MentionCounts(brand: string, names: seq<string>, completed: seq<Execution>): map<string, nat> {
    map[(if brand == "" then "Brand" else brand) := CountSignal(Mentioned, completed)] + RivalMentions(names, completed)
  }

  // ----- Tokens -----

  function Add(a: Usage, b: Usage): Usage {
    Usage(a.uncachedInput + b.uncachedInput, a.cachedInput + b.cachedInput, a.output + b.output, a.total + b.total)
  }

  function Uncached(e: Execution): int { e.usage.uncachedInput }
  function Cached(e: Execution): int { e.usage.cachedInput }
  function OutputTokens(e: Execution): int { e.usage.output }
  function TotalTokens(e: Execution): int { e.usage.total }

  function TokenTotals(completed: seq<Execution>): Usage {
    Usage(Counting.SumBy(Uncached, completed), Counting.SumBy(Cached, completed),
          Counting.SumBy(OutputTokens, completed), Counting.SumBy(TotalTokens, completed))
  }

  /** Accumulates the totals, and derives the input tokens from them. */
  method AggregateTokenUsage(completed: seq<Execution>) returns (totals: Usage, inputTokens: int)
    ensures totals == TokenTotals(completed)
    ensures inputTokens == totals.uncachedInput + totals.cachedInput
  {
    totals := Usage(0, 0, 0, 0);
    for i := 0 to |completed|
      invariant totals == TokenTotals(completed[..i])
    {
      TokensAppend(completed[..i], completed[i]);
      assert completed[..i + 1] == completed[..i] + [completed[i]];
      totals := Add(totals, completed[i].usage);
    }
    assert completed[..|completed|] == completed;
    inputTokens := totals.uncachedInput + totals.cachedInput;
  }

  lemma TokensAppend(completed: seq<Execution>, e: Execution)
    ensures TokenTotals(completed + [e]) == Add(TokenTotals(completed), e.usage)
  {
    Counting.SumByAppend(Uncached, completed, [e]);
    Counting.SumByAppend(Cached, completed, [e]);
    Counting.SumByAppend(OutputTokens, completed, [e]);
    Counting.SumByAppend(TotalTokens, completed, [e]);
  }

  // ----- The run aggregate is a fold over a multiset -----

  datatype Config = Config(brand: string, competitors: seq<string>)

  datatype Aggregate = Aggregate(
    totalCompleted: nat,
    headline: Headline,
    mentionCounts: map<string, nat>,
    rivalMentionRates: map<string, real>,
    rivalCitationRates: map<string, real>,
    tokens: Usage)

  function AggregateRun(rows: seq<Execution>, config: Config): Aggregate {
    var completed := Completed(rows);
    Aggregate(
      |completed|,
      HeadlineOf(completed),
      MentionCounts(config.brand, config.competitors, completed),
      RivalRates(MentionsRival, config.competitors, completed),
      RivalRates(CitesRival, config.competitors, completed),
      TokenTotals(completed))
  }

  lemma SignalPermuted(p: Score -> bool, a: seq<Execution>, b: seq<Execution>)
    requires multiset(a) == multiset(b)
    ensures CountSignal(p, a) == CountSignal(p, b)
  {
    Counting.CountIfPermuted(Signal(p), a, b);
  }

  lemma HeadlinePermuted(a: seq<Execution>, b: seq<Execution>)
    requires multiset(a) == multiset(b)
    ensures HeadlineOf(a) == HeadlineOf(b)
  {
    hide CountSignal, Rate, Round;
    Ordering.SameElements(a, b);
    SignalPermuted(Mentioned, a, b);
    SignalPermuted(OwnedCited, a, b);
    SignalPermuted(MentionedAndOwned, a, b);
    SignalPermuted(OrganicInjected, a, b);
    SignalPermuted(OrganicQueryKnown, a, b);
    SignalPermuted(QueryKnown, a, b);
    SignalPermuted(CompetitorInjected, a, b);
    SignalPermuted(SearchUsed, a, b);
    SignalPermuted(Unintended, a, b);
    Counting.SumByPermuted(Queries, a, b);
  }

  lemma RivalRatesPermuted(signal: string -> (Score -> bool), names: seq<string>, a: seq<Execution>, b: seq<Execution>)
    requires multiset(a) == multiset(b)
    ensures RivalRates(signal, names, a) == RivalRates(signal, names, b)
  {
    hide CountSignal, Rate;
    Ordering.SameElements(a, b);
    forall name | name in names ensures CountSignal(signal(name), a) == CountSignal(signal(name), b) {
      SignalPermuted(signal(name), a, b);
    }
  }

  lemma MentionCountsPermuted(brand: string, names: seq<string>, a: seq<Execution>, b: seq<Execution>)
    requires multiset(a) == multiset(b)
    ensures MentionCounts(brand, names, a) == MentionCounts(brand, names, b)
  {
    hide CountSignal;
    SignalPermuted(Mentioned, a, b);
    forall name | name in names ensures CountSignal(MentionsRival(name), a) == CountSignal(MentionsRival(name), b) {
      SignalPermuted(MentionsRival(name), a, b);
    }
    assert RivalMentions(names, a) == RivalMentions(names, b);
  }

  lemma TokensPermuted(a: seq<Execution>, b: seq<Execution>)
    requires multiset(a) == multiset(b)
    ensures TokenTotals(a) == TokenTotals(b)
  {
    Counting.SumByPermuted(Uncached, a, b);
    Counting.SumByPermuted(Cached, a, b);
    Counting.SumByPermuted(OutputTokens, a, b);
    Counting.SumByPermuted(TotalTokens, a, b);
  }

  /** Permuting the executions of a run changes no rate, count or total. */
  lemma AggregateIsOrderIndependent(a: seq<Execution>, b: seq<Execution>, config: Config)
    requires multiset(a) == multiset(b)
    ensures AggregateRun(a, config) == AggregateRun(b, config)
  {
    hide HeadlineOf, MentionCounts, RivalRates, TokenTotals;
    Counting.FilterPermuted(IsCompleted, a, b);
    var ca, cb := Completed(a), Completed(b);
    Ordering.SameElements(ca, cb);
    HeadlinePermuted(ca, cb);
    MentionCountsPermuted(config.brand, config.competitors, ca, cb);
    RivalRatesPermuted(MentionsRival, config.competitors, ca, cb);
    RivalRatesPermuted(CitesRival, config.competitors, ca, cb);
    TokensPermuted(ca, cb);
  }

  // ----- Engines account for the whole run -----

  function EngineOf(e: Execution): string { e.engine }

  function OfEngine(rows: seq<Execution>, engine: string): seq<Execution> {
    Counting.Part(EngineOf, engine, rows)
  }

  function Engines(rows: seq<Execution>): set<string> {
    set e | e in rows :: e.engine
  }

  /** Appending each execution to its engine's list, as rows are read. */
  method GroupByEngine(rows: seq<Execution>) returns (perEngine: map<string, seq<Execution>>)
    ensures perEngine.Keys == Engines(rows)
    ensures forall engine :: engine in perEngine ==> perEngine[engine] == OfEngine(rows, engine)
  {
    perEngine := map[];
    for i := 0 to |rows|
      invariant perEngine.Keys == Engines(rows[..i])
      invariant forall engine :: engine in perEngine ==> perEngine[engine] == OfEngine(rows[..i], engine)
    {
      var e := rows[i];
      assert rows[..i + 1] == rows[..i] + [e];
      EnginesAppend(rows[..i], e);
      forall engine ensures OfEngine(rows[..i + 1], engine)
                         == OfEngine(rows[..i], engine) + (if e.engine == engine then [e] else []) {
        PartAppend(rows[..i], e, engine);
      }
      if e.engine !in perEngine { NoneOfEngine(rows[..i], e.engine); }
      perEngine := perEngine[e.engine := (if e.engine in perEngine then perEngine[e.engine] else []) + [e]];
    }
    assert rows[..|rows|] == rows;
  }

  lemma EnginesAppend(rows: seq<Execution>, e: Execution)
    ensures Engines(rows + [e]) == Engines(rows) + {e.engine}
  {
  }

  lemma PartAppend(rows: seq<Execution>, e: Execution, engine: string)
    ensures OfEngine(rows + [e], engine) == OfEngine(rows, engine) + (if e.engine == engine then [e] else [])
  {
    Counting.FilterAppend(Counting.KeyIs(EngineOf, engine), rows, [e]);
    assert [e][1..] == [];
  }

  lemma NoneOfEngine(rows: seq<Execution>, engine: string)
    requires engine !in Engines(rows)
    ensures OfEngine(rows, engine) == []
  {
    assert forall e :: e in rows ==> e.engine in Engines(rows);
    Counting.FilterNone(Counting.KeyIs(EngineOf, engine), rows);
  }

  function InCohorts(cohorts: set<string>): Execution -> bool {
    (e: Execution) => e.cohort in cohorts
  }

  /** What an execution adds to a total taken over the completed executions of some cohorts. */
  function Contribution(cohorts: set<string>, f: Execution -> int): Execution -> int {
    (e: Execution) => if e.cohort in cohorts && IsCompleted(e) then f(e) else 0
  }

  /** The completed executions an aggregate over some cohorts reads. */
  function Selected(rows: seq<Execution>, cohorts: set<string>): seq<Execution> {
    Completed(Counting.Filter(InCohorts(cohorts), rows))
  }

  lemma SelectedSum(rows: seq<Execution>, cohorts: set<string>, f: Execution -> int)
    ensures Counting.SumBy(f, Selected(rows, cohorts)) == Counting.SumBy(Contribution(cohorts, f), rows)
  {
    var done := Counting.Restricted(IsCompleted, f);
    Counting.FilterSums(IsCompleted, f, Counting.Filter(InCohorts(cohorts), rows));
    Counting.FilterSums(InCohorts(cohorts), done, rows);
    Counting.SumBySame(Counting.Restricted(InCohorts(cohorts), done), Contribution(cohorts, f), rows);
  }

  function EngineTotal(rows: seq<Execution>, cohorts: set<string>, f: Execution -> int): string -> int {
    (engine: string) => Counting.SumBy(f, Selected(OfEngine(rows, engine), cohorts))
  }

  /** Any total over the completed executions of some cohorts is the sum of the engines' totals. */
  lemma EnginesSumToRun(rows: seq<Execution>, cohorts: set<string>, f: Execution -> int)
    ensures Counting.SumBy(EngineTotal(rows, cohorts, f), Ordering.SortedStrings(Engines(rows)))
         == Counting.SumBy(f, Selected(rows, cohorts))
  {
    var engines := Ordering.SortedStrings(Engines(rows));
    Ordering.SortedStringsDistinct(Engines(rows));
    var g := Contribution(cohorts, f);
    forall engine ensures EngineTotal(rows, cohorts, f)(engine) == Counting.PartSum(EngineOf, g, rows)(engine) {
      SelectedSum(OfEngine(rows, engine), cohorts, f);
    }
    Counting.SumBySame(EngineTotal(rows, cohorts, f), Counting.PartSum(EngineOf, g, rows), engines);
    Counting.PartitionSums(EngineOf, g, engines, rows);
    SelectedSum(rows, cohorts, f);
  }


  function SignalOne(p: Score -> bool): Execution -> int {
    (e: Execution) => if Signal(p)(e) then 1 else 0
  }

  lemma {:induction false} SignalsAreSums(p: Score -> bool, rows: seq<Execution>)
    ensures CountSignal(p, rows) == Counting.SumBy(SignalOne(p), rows)
  {
    if rows != [] { SignalsAreSums(p, rows[1..]); }
  }

  /** The aggregate of one engine over some cohorts, as reported beside the run's. */
  function EngineAggregate(rows: seq<Execution>, config: Config, cohorts: set<string>, engine: string): Aggregate {
    AggregateRun(Counting.Filter(InCohorts(cohorts), OfEngine(rows, engine)), config)
  }

  function CohortAggregate(rows: seq<Execution>, config: Config, cohorts: set<string>): Aggregate {
    AggregateRun(Counting.Filter(InCohorts(cohorts), rows), config)
  }

  function EngineField(rows: seq<Execution>, config: Config, cohorts: set<string>, field: Aggregate -> int): string -> int {
    (engine: string) => field(EngineAggregate(rows, config, cohorts, engine))
  }

  /** Reported fields that are totals of a per-execution quantity add up over the engines. */
  lemma FieldSums(rows: seq<Execution>, config: Config, cohorts: set<string>, field: Aggregate -> int, f: Execution -> int)
    requires forall some: seq<Execution> :: field(AggregateRun(some, config)) == Counting.SumBy(f, Completed(some))
    ensures Counting.SumBy(EngineField(rows, config, cohorts, field), Ordering.SortedStrings(Engines(rows)))
         == field(CohortAggregate(rows, config, cohorts))
  {
    hide AggregateRun;
    var engines := Ordering.SortedStrings(Engines(rows));
    forall engine ensures EngineField(rows, config, cohorts, field)(engine) == EngineTotal(rows, cohorts, f)(engine) {
      FieldOfEngine(rows, config, cohorts, field, f, engine);
    }
    Counting.SumBySame(EngineField(rows, config, cohorts, field), EngineTotal(rows, cohorts, f), engines);
    EnginesSumToRun(rows, cohorts, f);
  }

  lemma FieldOfEngine(rows: seq<Execution>, config: Config, cohorts: set<string>, field: Aggregate -> int,
                      f: Execution -> int, engine: string)
    requires forall some: seq<Execution> :: field(AggregateRun(some, config)) == Counting.SumBy(f, Completed(some))
    ensures field(EngineAggregate(rows, config, cohorts, engine))
         == Counting.SumBy(f, Selected(OfEngine(rows, engine), cohorts))
  {
    hide AggregateRun;
  }

  function CompletedField(a: Aggregate): int { a.totalCompleted }
  function UncachedField(a: Aggregate): int { a.tokens.uncachedInput }
  function CachedField(a: Aggregate): int { a.tokens.cachedInput }
  function OutputField(a: Aggregate): int { a.tokens.output }
  function TotalField(a: Aggregate): int { a.tokens.total }
  function MentionField(name: string): Aggregate -> int {
    (a: Aggregate) => if name in a.mentionCounts then a.mentionCounts[name] else 0
  }

  /** Completed counts and token totals of the engines add up to the run's. */
  lemma EnginesConserveTotals(rows: seq<Execution>, config: Config, cohorts: set<string>)
    ensures var engines, run := Ordering.SortedStrings(Engines(rows)), CohortAggregate(rows, config, cohorts);
            && Counting.SumBy(EngineField(rows, config, cohorts, CompletedField), engines) == run.totalCompleted
            && Counting.SumBy(EngineField(rows, config, cohorts, UncachedField), engines) == run.tokens.uncachedInput
            && Counting.SumBy(EngineField(rows, config, cohorts, CachedField), engines) == run.tokens.cachedInput
            && Counting.SumBy(EngineField(rows, config, cohorts, OutputField), engines) == run.tokens.output
            && Counting.SumBy(EngineField(rows, config, cohorts, TotalField), engines) == run.tokens.total
  {
    forall some: seq<Execution> ensures CompletedField(AggregateRun(some, config)) == Counting.SumBy(Counting.One, Completed(some)) {
      Counting.OnesAreLength(Completed(some));
    }
    FieldSums(rows, config, cohorts, CompletedField, Counting.One);
    FieldSums(rows, config, cohorts, UncachedField, Uncached);
    FieldSums(rows, config, cohorts, CachedField, Cached);
    FieldSums(rows, config, cohorts, OutputField, OutputTokens);
    FieldSums(rows, config, cohorts, TotalField, TotalTokens);
  }

  function BrandKey(config: Config): string { if config.brand == "" then "Brand" else config.brand }

  /** Mention counts of the engines add up to the run's: for each competitor always, and for the brand when
      no competitor shares its name. */
  lemma EnginesConserveMentions(rows: seq<Execution>, config: Config, cohorts: set<string>, name: string)
    requires name in config.competitors || name == BrandKey(config)
    ensures name in CohortAggregate(rows, config, cohorts).mentionCounts
    ensures Counting.SumBy(EngineField(rows, config, cohorts, MentionField(name)), Ordering.SortedStrings(Engines(rows)))
         == CohortAggregate(rows, config, cohorts).mentionCounts[name]
  {
    hide AggregateRun;
    var p := if name in config.competitors then MentionsRival(name) else Mentioned;
    forall some: seq<Execution>
      ensures MentionField(name)(AggregateRun(some, config)) == Counting.SumBy(SignalOne(p), Completed(some))
    {
      MentionCountOf(some, config, name);
      SignalsAreSums(p, Completed(some));
    }
    MentionCountOf(Counting.Filter(InCohorts(cohorts), rows), config, name);
    FieldSums(rows, config, cohorts, MentionField(name), SignalOne(p));
  }

  lemma MentionCountOf(rows: seq<Execution>, config: Config, name: string)
    requires name in config.competitors || name == BrandKey(config)
    ensures name in AggregateRun(rows, config).mentionCounts
    ensures AggregateRun(rows, config).mentionCounts[name]
         == CountSignal(if name in config.competitors then MentionsRival(name) else Mentioned, Completed(rows))
  {
    hide HeadlineOf, TokenTotals, CountSignal, RivalRates, Completed;
  }
}
