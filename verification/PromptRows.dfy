/** The per-prompt rows of a run: grouping by prompt, ranking by composite score, the run's visibility score. */
module PromptRows {
  import opened Executions
  import opened PromptComposite
  import CompositeMeaning
  import opened Rounding
  import RunAggregation
  import Counting
  import Ordering

  datatype Row = Row(prompt: int, repetitions: nat, mentioned: nat, composite: real,
                     perEngine: map<string, real>, consistency: real)

  // ----- Grouping -----

  function PromptOf(item: Execution): int { item.promptIndex }

  function GroupOf(completed: seq<Execution>, prompt: int): seq<Execution> {
    Counting.Part(PromptOf, prompt, completed)
  }

  /** The prompts that were executed, each once. */
  function Prompts(completed: seq<Execution>): (r: seq<int>)
    ensures Ordering.NoDuplicates(r)
    ensures forall p :: p in r <==> exists i :: 0 <= i < |completed| && completed[i].promptIndex == p
  {
    if completed == [] then []
    else
      var last := completed[|completed| - 1];
      var before := Prompts(completed[..|completed| - 1]);
      assert forall i :: 0 <= i < |completed| - 1 ==> completed[..|completed| - 1][i] == completed[i];
      if last.promptIndex in before then before else before + [last.promptIndex]
  }

  /** A dict filled in order: keys as first met, and the executions of each. */
  datatype Grouped = Grouped(keys: seq<int>, groups: map<int, seq<Execution>>)

  ghost predicate Groups(g: Grouped, completed: seq<Execution>) {
    && g.keys == Prompts(completed)
    && (forall p :: p in g.groups <==> p in g.keys)
    && (forall p :: p in g.groups ==> g.groups[p] == GroupOf(completed, p))
  }

  lemma GroupAppend(completed: seq<Execution>, item: Execution, p: int)
    ensures GroupOf(completed + [item], p) == GroupOf(completed, p) + (if item.promptIndex == p then [item] else [])
  {
    Counting.FilterAppend(Counting.KeyIs(PromptOf, p), completed, [item]);
    assert [item][1..] == [];
  }

  lemma NoGroup(completed: seq<Execution>, p: int)
    requires p !in Prompts(completed)
    ensures GroupOf(completed, p) == []
  {
    Counting.FilterNone(Counting.KeyIs(PromptOf, p), completed);
  }

  /** `setdefault(prompt_index, []).append(execution)` */
  lemma GroupsStep(g: Grouped, before: seq<Execution>, item: Execution)
    requires Groups(g, before)
    ensures var p := item.promptIndex;
            var group := if p in g.groups then g.groups[p] else [];
            Groups(Grouped(if p in g.groups then g.keys else g.keys + [p], g.groups[p := group + [item]]), before + [item])
  {
    hide GroupOf;
    assert (before + [item])[..|before|] == before;
    forall p { GroupAppend(before, item, p); }
    if item.promptIndex !in g.groups { NoGroup(before, item.promptIndex); }
  }

  method GroupByPrompt(completed: seq<Execution>) returns (g: Grouped)
    ensures Groups(g, completed)
  {
    g := Grouped([], map[]);
    for i := 0 to |completed|
      invariant Groups(g, completed[..i])
    {
      var p := completed[i].promptIndex;
      GroupsStep(g, completed[..i], completed[i]);
      assert completed[..i + 1] == completed[..i] + [completed[i]];
      hide Groups;
      var group := if p in g.groups then g.groups[p] else [];
      g := Grouped(if p in g.groups then g.keys else g.keys + [p], g.groups[p := group + [completed[i]]]);
    }
    assert completed[..|completed|] == completed;
  }

  // ----- Rows -----

  function RowOf(prompt: int, group: seq<Execution>, w: Weights, competitors: bool): Row
    requires Positive(w)
  {
    var scores := EngineScores(group, w, competitors);
    Row(prompt, |group|, Mentioned(group), Composite(group, w, competitors), scores, Consistency(scores))
  }

  function RowsFor(prompts: seq<int>, completed: seq<Execution>, w: Weights, competitors: bool): (r: seq<Row>)
    requires Positive(w)
    ensures |r| == |prompts|
    ensures forall i :: 0 <= i < |r| ==> r[i] == RowOf(prompts[i], GroupOf(completed, prompts[i]), w, competitors)
  {
    if prompts == [] then []
    else [RowOf(prompts[0], GroupOf(completed, prompts[0]), w, competitors)] + RowsFor(prompts[1..], completed, w, competitors)
  }

  function Ascending(): (int, int) -> bool { (a: int, b: int) => a <= b }

  /** Higher composite first, then the earlier prompt. */
  function RanksBefore(): (Row, Row) -> bool {
    (a: Row, b: Row) => a.composite > b.composite || (a.composite == b.composite && a.prompt <= b.prompt)
  }

  function PerPrompt(completed: seq<Execution>, w: Weights, competitors: bool): seq<Row>
    requires Positive(w)
  {
    Ordering.Sort(RanksBefore(), RowsFor(Ordering.Sort(Ascending(), Prompts(completed)), completed, w, competitors))
  }

  /** The rows of the first prompts, and one more. */
  lemma NextRow(prompts: seq<int>, i: nat, completed: seq<Execution>, w: Weights, competitors: bool)
    requires Positive(w) && i < |prompts|
    ensures RowsFor(prompts, completed, w, competitors)[..i + 1]
         == RowsFor(prompts, completed, w, competitors)[..i]
          + [RowOf(prompts[i], GroupOf(completed, prompts[i]), w, competitors)]
  {
    hide RowOf, GroupOf;
  }

  method PerPromptMetrics(completed: seq<Execution>, w: Weights, competitors: bool) returns (rows: seq<Row>)
    requires Positive(w)
    ensures rows == PerPrompt(completed, w, competitors)
  {
    hide RowOf, GroupOf, RowsFor, Prompts, Ordering.Sort;
    var g := GroupByPrompt(completed);
    var keys := Ordering.Sort(Ascending(), g.keys);
    Ordering.SameElements(keys, g.keys);
    rows := [];
    for i := 0 to |keys|
      invariant rows == RowsFor(keys, completed, w, competitors)[..i]
    {
      assert keys[i] in g.keys;
      NextRow(keys, i, completed, w, competitors);
      rows := rows + [RowOf(keys[i], g.groups[keys[i]], w, competitors)];
    }
    assert RowsFor(keys, completed, w, competitors)[..|keys|] == RowsFor(keys, completed, w, competitors);
    rows := Ordering.Sort(RanksBefore(), rows);
  }

  // ----- What the rows are -----

  /** Sorting keeps a list without duplicates that way. */
  lemma SortedPrompts(completed: seq<Execution>)
    ensures var keys := Ordering.Sort(Ascending(), Prompts(completed));
            Ordering.NoDuplicates(keys) && forall p :: p in keys <==> p in Prompts(completed)
  {
    var keys := Ordering.Sort(Ascending(), Prompts(completed));
    Ordering.SameElements(keys, Prompts(completed));
    Ordering.CardinalityAtMost(Prompts(completed));
    assert Ordering.Elements(keys) == Ordering.Elements(Prompts(completed));
    Ordering.DistinctWhenCounted(keys);
  }

  lemma RowsAreDistinct(prompts: seq<int>, completed: seq<Execution>, w: Weights, competitors: bool)
    requires Positive(w) && Ordering.NoDuplicates(prompts)
    ensures Ordering.NoDuplicates(RowsFor(prompts, completed, w, competitors))
    ensures Ordering.TieFree(RanksBefore(), RowsFor(prompts, completed, w, competitors))
  {
  }

  ghost predicate Outranks(a: Row, b: Row) {
    a.composite > b.composite || (a.composite == b.composite && a.prompt < b.prompt)
  }

  lemma RanksAreTotal()
    ensures Ordering.TotalPreorder(RanksBefore())
  {
  }

  /** One row per executed prompt, each scored on exactly that prompt's executions, strictly ranked by
      composite score and then prompt. */
  lemma PerPromptSpec(completed: seq<Execution>, w: Weights, competitors: bool)
    requires Positive(w)
    ensures var rows := PerPrompt(completed, w, competitors);
            && (forall i, j :: 0 <= i < j < |rows| ==> Outranks(rows[i], rows[j]))
            && (forall row :: row in rows <==>
                  row.prompt in Prompts(completed) && row == RowOf(row.prompt, GroupOf(completed, row.prompt), w, competitors))
  {
    hide RowOf, GroupOf, RanksBefore;
    var keys := Ordering.Sort(Ascending(), Prompts(completed));
    SortedPrompts(completed);
    var unranked := RowsFor(keys, completed, w, competitors);
    RowsAreDistinct(keys, completed, w, competitors);
    RanksAreTotal();
    Ordering.SortSorts(RanksBefore(), unranked);
    var rows := PerPrompt(completed, w, competitors);
    Ordering.SameElements(rows, unranked);
    SortedDistinct(unranked, rows);
    forall row ensures row in rows <==>
      row.prompt in Prompts(completed) && row == RowOf(row.prompt, GroupOf(completed, row.prompt), w, competitors)
    {
      RowPrompts(keys, completed, w, competitors, row);
    }
  }

  lemma RowPrompts(keys: seq<int>, completed: seq<Execution>, w: Weights, competitors: bool, row: Row)
    requires Positive(w)
    ensures row in RowsFor(keys, completed, w, competitors)
       <==> row.prompt in keys && row == RowOf(row.prompt, GroupOf(completed, row.prompt), w, competitors)
  {
  }

  lemma SortedDistinct(unranked: seq<Row>, rows: seq<Row>)
    requires Ordering.NoDuplicates(unranked) && multiset(rows) == multiset(unranked)
    requires Ordering.Sorted(RanksBefore(), rows) && Ordering.TieFree(RanksBefore(), unranked)
    ensures forall i, j :: 0 <= i < j < |rows| ==> Outranks(rows[i], rows[j])
  {
    Ordering.SameElements(rows, unranked);
    Ordering.CardinalityAtMost(unranked);
    assert Ordering.Elements(rows) == Ordering.Elements(unranked);
    Ordering.DistinctWhenCounted(rows);
    forall i, j | 0 <= i < j < |rows| ensures Outranks(rows[i], rows[j]) {
      assert rows[i] in rows && rows[j] in rows;
      assert RanksBefore()(rows[i], rows[j]);
    }
  }

  // ----- Conservation -----

  function Repetitions(row: Row): int { row.repetitions }
  function Mentions(row: Row): int { row.mentioned }

  lemma {:induction false} RowTotals(prompts: seq<int>, completed: seq<Execution>, w: Weights, competitors: bool)
    requires Positive(w)
    ensures Counting.SumBy(Repetitions, RowsFor(prompts, completed, w, competitors))
         == Counting.SumBy(Counting.PartSum(PromptOf, Counting.One, completed), prompts)
    ensures Counting.SumBy(Mentions, RowsFor(prompts, completed, w, competitors))
         == Counting.SumBy(Counting.PartSum(PromptOf, MentionedOne, completed), prompts)
  {
    if prompts != [] {
      TallyBounds(GroupOf(completed, prompts[0]));
      RowTotals(prompts[1..], completed, w, competitors);
    }
  }

  /** The rows account for every completed execution and every mention once. */
  lemma RowsConserveExecutions(completed: seq<Execution>, w: Weights, competitors: bool)
    requires Positive(w)
    ensures Counting.SumBy(Repetitions, PerPrompt(completed, w, competitors)) == |completed|
    ensures Counting.SumBy(Mentions, PerPrompt(completed, w, competitors)) == Mentioned(completed)
  {
    hide RowOf;
    var keys := Ordering.Sort(Ascending(), Prompts(completed));
    var unranked := RowsFor(keys, completed, w, competitors);
    SortedPrompts(completed);
    Counting.SumByPermuted(Repetitions, PerPrompt(completed, w, competitors), unranked);
    Counting.SumByPermuted(Mentions, PerPrompt(completed, w, competitors), unranked);
    RowTotals(keys, completed, w, competitors);
    Counting.PartitionSums(PromptOf, Counting.One, keys, completed);
    Counting.PartitionSums(PromptOf, MentionedOne, keys, completed);
    TallyBounds(completed);
  }

  /** The rows of a run account for its completed count, and for the brand mentions its headline rate and
      share of voice are taken from. */
  lemma RowsAgreeWithRun(rows: seq<Execution>, config: RunAggregation.Config, w: Weights, competitors: bool)
    requires Positive(w)
    ensures var perPrompt := PerPrompt(RunAggregation.Completed(rows), w, competitors);
            && Counting.SumBy(Repetitions, perPrompt) == RunAggregation.AggregateRun(rows, config).totalCompleted
            && Counting.SumBy(Mentions, perPrompt)
               == RunAggregation.CountSignal(RunAggregation.Mentioned, RunAggregation.Completed(rows))
  {
    hide PerPrompt, RunAggregation.Completed;
    var completed := RunAggregation.Completed(rows);
    RowsConserveExecutions(completed, w, competitors);
    RunAggregation.SignalsAreSums(RunAggregation.Mentioned, completed);
    forall e ensures MentionedOne(e) == RunAggregation.SignalOne(RunAggregation.Mentioned)(e) {
      assert RunAggregation.Signal(RunAggregation.Mentioned)(e)
        <==> e.score.Some? && RunAggregation.Mentioned(e.score.value);
    }
    Counting.SumBySame(MentionedOne, RunAggregation.SignalOne(RunAggregation.Mentioned), completed);
  }

  // ----- What a row says -----

  function OfPrompt(prompt: int): Execution -> bool { (e: Execution) => e.promptIndex == prompt }

  function Mentioning(prompt: int): Execution -> bool {
    (e: Execution) => e.promptIndex == prompt && e.score.Some? && e.score.value.brandMentioned
  }

  lemma {:induction false} GroupCounts(completed: seq<Execution>, prompt: int)
    ensures |GroupOf(completed, prompt)| == Counting.CountIf(OfPrompt(prompt), completed)
    ensures Mentioned(GroupOf(completed, prompt)) == Counting.CountIf(Mentioning(prompt), completed)
  {
    if completed != [] {
      GroupCounts(completed[1..], prompt);
      var group := GroupOf(completed[1..], prompt);
      if PromptOf(completed[0]) == prompt {
        assert GroupOf(completed, prompt) == [completed[0]] + group && ([completed[0]] + group)[1..] == group;
      } else {
        assert GroupOf(completed, prompt) == [] + group == group;
      }
    }
  }

  /** A row's repetitions are the executions of its prompt, its mention count those that mention the brand; with
      competitors its composite is within a hundredth of the exact weighted mean over those executions; its engine
      scores and their consistency are those of its executions. */
  lemma RowMeans(completed: seq<Execution>, w: Weights, competitors: bool, row: Row)
    requires Positive(w) && row in PerPrompt(completed, w, competitors)
    ensures row.repetitions == |set i | 0 <= i < |completed| && completed[i].promptIndex == row.prompt| > 0
    ensures row.mentioned == |set i | 0 <= i < |completed| && completed[i].promptIndex == row.prompt
                                      && completed[i].score.Some? && completed[i].score.value.brandMentioned|
    ensures var group := GroupOf(completed, row.prompt);
            && row.composite == Composite(group, w, competitors)
            && row.perEngine == EngineScores(group, w, competitors) && row.consistency == Consistency(row.perEngine)
            && (competitors ==>
                  -0.01 <= row.composite - CompositeMeaning.ExactWithRivals(row.mentioned, Owned(group), Rivals(group),
                                                                            row.repetitions, w) <= 0.01)
            && (!competitors ==> -0.01 <= row.composite - Exact(row.mentioned, Owned(group), row.repetitions, w) <= 0.01)
  {
    hide Composite, Mentioned, Owned, Rivals, EngineScores, Consistency, GroupOf, CompositeMeaning.ExactWithRivals, Exact, PerPrompt;
    PerPromptSpec(completed, w, competitors);
    var group := GroupOf(completed, row.prompt);
    GroupCounts(completed, row.prompt);
    Counting.PositionsCount(OfPrompt(row.prompt), completed);
    Counting.PositionsCount(Mentioning(row.prompt), completed);
    assert Counting.Positions(OfPrompt(row.prompt), completed)
        == set i | 0 <= i < |completed| && completed[i].promptIndex == row.prompt;
    assert Counting.Positions(Mentioning(row.prompt), completed)
        == set i | 0 <= i < |completed| && completed[i].promptIndex == row.prompt
                   && completed[i].score.Some? && completed[i].score.value.brandMentioned;
    SomeRepetition(completed, row.prompt);
    assert At(completed, row.prompt) == set i | 0 <= i < |completed| && completed[i].promptIndex == row.prompt;
    if competitors { CompositeMeaning.CompetitiveError(group, w); } else { CompositeError(group, w); }
  }

  function At(completed: seq<Execution>, prompt: int): set<int> {
    set i | 0 <= i < |completed| && completed[i].promptIndex == prompt
  }

  lemma SomeRepetition(completed: seq<Execution>, prompt: int)
    requires prompt in Prompts(completed)
    ensures |At(completed, prompt)| > 0
  {
    var i :| 0 <= i < |completed| && completed[i].promptIndex == prompt;
    Ordering.SubsetCardinality({i}, At(completed, prompt));
  }

  // ----- Order independence -----

  lemma CompositePermuted(a: seq<Execution>, b: seq<Execution>, w: Weights, competitors: bool)
    requires Positive(w) && multiset(a) == multiset(b)
    ensures |a| == |b| && Mentioned(a) == Mentioned(b) && Composite(a, w, competitors) == Composite(b, w, competitors)
  {
    hide Blend, Rate, Round;
    Ordering.SameElements(a, b);
    Counting.SumByPermuted(MentionedOne, a, b);
    Counting.SumByPermuted(OwnedOne, a, b);
    Counting.SumByPermuted(CompetitorCount, a, b);
  }

  lemma RowPermuted(prompt: int, a: seq<Execution>, b: seq<Execution>, w: Weights, competitors: bool)
    requires Positive(w) && multiset(a) == multiset(b)
    ensures RowOf(prompt, a, w, competitors) == RowOf(prompt, b, w, competitors)
  {
    hide Composite, Mentioned, Consistency;
    Ordering.SameElements(a, b);
    CompositePermuted(a, b, w, competitors);
    assert Engines(a) == Engines(b);
    forall engine ensures Composite(OfEngine(a, engine), w, competitors) == Composite(OfEngine(b, engine), w, competitors) {
      Counting.FilterPermuted(Counting.KeyIs(EngineOf, engine), a, b);
      CompositePermuted(OfEngine(a, engine), OfEngine(b, engine), w, competitors);
    }
    assert EngineScores(a, w, competitors) == EngineScores(b, w, competitors);
  }

  lemma SamePrompts(a: seq<Execution>, b: seq<Execution>)
    requires multiset(a) == multiset(b)
    ensures Ordering.Sort(Ascending(), Prompts(a)) == Ordering.Sort(Ascending(), Prompts(b))
  {
    Ordering.SameElements(a, b);
    forall p ensures p in Prompts(a) <==> p in Prompts(b) {
      if p in Prompts(a) {
        var i :| 0 <= i < |a| && a[i].promptIndex == p;
        assert a[i] in b;
      }
      if p in Prompts(b) {
        var i :| 0 <= i < |b| && b[i].promptIndex == p;
        assert b[i] in a;
      }
    }
    Ordering.SameSetSameMultiset(Prompts(a), Prompts(b));
    Ordering.SortOrderIndependent(Ascending(), Prompts(a), Prompts(b));
  }

  lemma {:induction false} RowsForPermuted(prompts: seq<int>, a: seq<Execution>, b: seq<Execution>, w: Weights, competitors: bool)
    requires Positive(w) && multiset(a) == multiset(b)
    ensures RowsFor(prompts, a, w, competitors) == RowsFor(prompts, b, w, competitors)
  {
    hide RowOf;
    if prompts != [] {
      Counting.FilterPermuted(Counting.KeyIs(PromptOf, prompts[0]), a, b);
      RowPermuted(prompts[0], GroupOf(a, prompts[0]), GroupOf(b, prompts[0]), w, competitors);
      RowsForPermuted(prompts[1..], a, b, w, competitors);
    }
  }

  /** Permuting the executions changes neither the rows nor their order. */
  lemma PerPromptOrderIndependent(a: seq<Execution>, b: seq<Execution>, w: Weights, competitors: bool)
    requires Positive(w) && multiset(a) == multiset(b)
    ensures PerPrompt(a, w, competitors) == PerPrompt(b, w, competitors)
  {
    hide RowsFor, Prompts;
    SamePrompts(a, b);
    RowsForPermuted(Ordering.Sort(Ascending(), Prompts(a)), a, b, w, competitors);
  }

  // ----- The run's visibility score -----

  function TotalComposite(rows: seq<Row>): real {
    if rows == [] then 0.0 else rows[0].composite + TotalComposite(rows[1..])
  }

  /** The plain mean of the prompts' composites. */
  function VisibilityScore(rows: seq<Row>): real {
    if rows == [] then 0.0 else Round(TotalComposite(rows) / |rows| as real, 100.0)
  }

  lemma {:induction false} TotalBounds(rows: seq<Row>)
    requires forall row :: row in rows ==> 0.0 <= row.composite <= 100.0
    ensures 0.0 <= TotalComposite(rows) <= 100.0 * |rows| as real
  {
    if rows != [] { TotalBounds(rows[1..]); }
  }

  lemma MeanBounds(total: real, n: real)
    requires n > 0.0 && 0.0 <= total <= 100.0 * n
    ensures 0.0 <= total / n <= 100.0
  {
  }

  /** The run's visibility score is a percentage. */
  lemma VisibilityScoreBounds(completed: seq<Execution>, w: Weights, competitors: bool)
    requires Positive(w)
    ensures 0.0 <= VisibilityScore(PerPrompt(completed, w, competitors)) <= 100.0
  {
    hide PerPrompt, Composite, GroupOf, Round;
    var rows := PerPrompt(completed, w, competitors);
    PerPromptSpec(completed, w, competitors);
    forall row | row in rows ensures 0.0 <= row.composite <= 100.0 {
      CompositeBounds(GroupOf(completed, row.prompt), w, competitors);
    }
    TotalBounds(rows);
    if rows != [] {
      MeanBounds(TotalComposite(rows), |rows| as real);
      RoundWithin(TotalComposite(rows) / |rows| as real, 0, 10000, 100.0);
    }
  }

  /** It is the plain mean of the rows' composites, to two places. */
  lemma VisibilityScoreMeans(rows: seq<Row>)
    ensures rows == [] ==> VisibilityScore(rows) == 0.0
    ensures rows != [] ==> -0.005 <= VisibilityScore(rows) - TotalComposite(rows) / |rows| as real <= 0.005
    ensures forall row :: TotalComposite([row] + rows) == row.composite + TotalComposite(rows)
  {
    if rows != [] { RoundError(TotalComposite(rows) / |rows| as real, 100.0); }
    forall row ensures TotalComposite([row] + rows) == row.composite + TotalComposite(rows) {
      assert ([row] + rows)[1..] == rows;
    }
  }
}
