/** Coverage of the requested slots: why the reported coverage and confidence never exceed one. */
module Coverage {
  import opened Rounding
  import Ordering
  import Counting

  type Id = nat

  /** A planned execution: one slot of the prompt, repetition and engine grid. */
  datatype Task = Task(promptIndex: int, repetition: int, engine: string)

  /** An analysis of a task's response; its prompt and engine are the task's. */
  datatype Analysis = Analysis(taskId: Id, promptIndex: int, engine: string)

  /** The rows of one audit, each table keyed by its primary key; prompt snapshots by their unique index. */
  datatype Audit = Audit(
    repetitions: nat,
    cohorts: map<int, string>,
    tasks: map<Id, Task>,
    analyses: map<Id, Analysis>)

  /** The constraints the schema and the planner keep. */
  ghost predicate Consistent(a: Audit) {
    // Slots are unique, and lie inside the grid.
    && (forall s, t :: s in a.tasks && t in a.tasks && a.tasks[s] == a.tasks[t] ==> s == t)
    && (forall t :: t in a.tasks ==> 0 <= a.tasks[t].repetition < a.repetitions && a.tasks[t].promptIndex in a.cohorts)
    // One analysis per task, naming the task's prompt and engine.
    && (forall x, y :: x in a.analyses && y in a.analyses && a.analyses[x].taskId == a.analyses[y].taskId ==> x == y)
    && (forall x :: x in a.analyses ==>
          && a.analyses[x].taskId in a.tasks
          && a.analyses[x].promptIndex == a.tasks[a.analyses[x].taskId].promptIndex
          && a.analyses[x].engine == a.tasks[a.analyses[x].taskId].engine)
  }

  /** The cohort of a row; a prompt without a snapshot would count as core. */
  function CohortOf(a: Audit, x: Id): string
    requires x in a.analyses
  {
    var p := a.analyses[x].promptIndex;
    if p in a.cohorts then a.cohorts[p] else "core"
  }

  function RowsIn(a: Audit, cohorts: set<string>): set<Id> {
    set x | x in a.analyses && CohortOf(a, x) in cohorts
  }

  function PromptsIn(a: Audit, cohorts: set<string>): set<int> {
    set p | p in a.cohorts && a.cohorts[p] in cohorts
  }

  function Engines(a: Audit): set<string> {
    set t | t in a.tasks :: a.tasks[t].engine
  }

  function Requested(a: Audit, cohorts: set<string>): nat {
    |PromptsIn(a, cohorts)| * (|Engines(a)| * a.repetitions)
  }

  function CohortCoverage(a: Audit, cohorts: set<string>): real {
    Rate(|RowsIn(a, cohorts)|, Requested(a, cohorts))
  }

  // ----- Counting the grid -----

  /** `range(n)` */
  function Repetitions(n: nat): (r: set<int>)
    ensures forall k :: k in r <==> 0 <= k < n
    ensures |r| == n
  {
    if n == 0 then {} else Repetitions(n - 1) + {n - 1}
  }

  function Pairs<A, B>(xs: set<A>, ys: set<B>): set<(A, B)> {
    set x, y | x in xs && y in ys :: (x, y)
  }

  function Row<A(==), B>(x: A, ys: set<B>): set<(A, B)> {
    set y | y in ys :: (x, y)
  }

  lemma {:induction false} RowCount<A, B>(x: A, ys: set<B>)
    ensures |Row(x, ys)| == |ys|
  {
    if ys != {} {
      var y :| y in ys;
      RowCount(x, ys - {y});
      assert Row(x, ys) == Row(x, ys - {y}) + {(x, y)};
    }
  }

  lemma PairsStep<A, B>(xs: set<A>, x: A, ys: set<B>)
    requires x in xs
    ensures Pairs(xs, ys) == Pairs(xs - {x}, ys) + Row(x, ys)
    ensures Pairs(xs - {x}, ys) !! Row(x, ys)
  {
  }

  lemma NoPairs<A, B>(ys: set<B>)
    ensures Pairs<A, B>({}, ys) == {}
  {
  }

  lemma {:induction false} PairCount<A, B>(xs: set<A>, ys: set<B>)
    ensures |Pairs(xs, ys)| == |xs| * |ys|
  {
    hide Pairs, Row;
    if xs == {} {
      NoPairs<A, B>(ys);
    } else {
      var x :| x in xs;
      PairCount(xs - {x}, ys);
      RowCount(x, ys);
      PairsStep(xs, x, ys);
      assert |xs| == |xs - {x}| + 1;
      assert |xs| * |ys| == |xs - {x}| * |ys| + |ys|;
    }
  }

  // ----- Rows inject into slots -----

  type Slot = (int, (string, int))

  function SlotOf(a: Audit, x: Id): Slot
    requires x in a.analyses && a.analyses[x].taskId in a.tasks
  {
    var t := a.tasks[a.analyses[x].taskId];
    (t.promptIndex, (t.engine, t.repetition))
  }

  /** Two analyses never share a slot. */
  lemma SlotsAreDistinct(a: Audit, x: Id, y: Id)
    requires Consistent(a) && x in a.analyses && y in a.analyses
    requires SlotOf(a, x) == SlotOf(a, y)
    ensures x == y
  {
  }

  ghost function SlotsOf(a: Audit, rows: set<Id>): set<Slot>
    requires Consistent(a) && rows <= a.analyses.Keys
  {
    set x | x in rows :: SlotOf(a, x)
  }

  lemma {:induction false} SlotCount(a: Audit, rows: set<Id>)
    requires Consistent(a) && rows <= a.analyses.Keys
    ensures |SlotsOf(a, rows)| == |rows|
  {
    if rows != {} {
      var x :| x in rows;
      SlotCount(a, rows - {x});
      forall y | y in rows - {x} ensures SlotOf(a, y) != SlotOf(a, x) {
        if SlotOf(a, y) == SlotOf(a, x) { SlotsAreDistinct(a, x, y); }
      }
      assert SlotsOf(a, rows) == SlotsOf(a, rows - {x}) + {SlotOf(a, x)};
    }
  }

  /** Rows whose prompts lie in a set of prompts are at most the slots of that part of the grid. */
  lemma RowsWithinGrid(a: Audit, rows: set<Id>, prompts: set<int>)
    requires Consistent(a) && rows <= a.analyses.Keys
    requires forall x :: x in rows ==> a.analyses[x].promptIndex in prompts
    ensures |rows| <= |prompts| * (|Engines(a)| * a.repetitions)
  {
    var grid := Pairs(prompts, Pairs(Engines(a), Repetitions(a.repetitions)));
    forall x | x in rows ensures SlotOf(a, x) in grid {
      var t := a.analyses[x].taskId;
      assert a.tasks[t].engine in Engines(a);
    }
    assert SlotsOf(a, rows) <= grid;
    SlotCount(a, rows);
    Ordering.SubsetCardinality(SlotsOf(a, rows), grid);
    PairCount(Engines(a), Repetitions(a.repetitions));
    PairCount(prompts, Pairs(Engines(a), Repetitions(a.repetitions)));
  }

  /** The completed rows of any cohorts are at most the slots requested for them, so coverage is a fraction. */
  lemma CohortCoverageIsFraction(a: Audit, cohorts: set<string>)
    requires Consistent(a)
    ensures |RowsIn(a, cohorts)| <= Requested(a, cohorts)
    ensures 0.0 <= CohortCoverage(a, cohorts) <= 1.0
  {
    forall x | x in RowsIn(a, cohorts) ensures a.analyses[x].promptIndex in PromptsIn(a, cohorts) {
      assert a.analyses[x].taskId in a.tasks;
    }
    RowsWithinGrid(a, RowsIn(a, cohorts), PromptsIn(a, cohorts));
    RateBounds(|RowsIn(a, cohorts)|, Requested(a, cohorts));
  }

  // ----- One prompt's evidence and trend confidence -----

  function RowsOfPrompt(a: Audit, p: int): set<Id> {
    set x | x in a.analyses && a.analyses[x].promptIndex == p
  }

  function EvidenceCoverage(observed: nat, engineCount: nat, repetitions: nat): real {
    Rate(observed, engineCount * repetitions)
  }

  /** However many of a prompt's rows were scored, they are at most its slots. */
  lemma PromptEvidenceIsFraction(a: Audit, p: int, observed: nat)
    requires Consistent(a) && observed <= |RowsOfPrompt(a, p)|
    ensures observed <= |Engines(a)| * a.repetitions
    ensures 0.0 <= EvidenceCoverage(observed, |Engines(a)|, a.repetitions) <= 1.0
  {
    hide Consistent, Engines, Rate;
    var rows := RowsOfPrompt(a, p);
    RowsWithinGrid(a, rows, {p});
    assert |{p}| == 1;
    EvidenceBounds(observed, |Engines(a)|, a.repetitions);
  }

  lemma EvidenceBounds(observed: nat, engineCount: nat, repetitions: nat)
    requires observed <= engineCount * repetitions
    ensures 0.0 <= EvidenceCoverage(observed, engineCount, repetitions) <= 1.0
  {
    RateBounds(observed, engineCount * repetitions);
  }

  /** How often the same answer came back: the larger of the two counts over the repetitions. */
  function Stability(trueCount: nat, repetitions: nat): real
    requires trueCount <= repetitions
  {
    Rate(if trueCount >= repetitions - trueCount then trueCount else repetitions - trueCount, repetitions)
  }

  function Overlapping(current: map<string, real>, previous: map<string, real>): seq<string> {
    Ordering.SortedStrings(current.Keys * previous.Keys)
  }

  function Declines(current: map<string, real>, previous: map<string, real>, materiality: real): string -> bool {
    (engine: string) =>
      engine in current && engine in previous && current[engine] - previous[engine] <= -materiality
  }

  /** The engines that fell by a material amount, and their share of the engines in both runs. */
  function DeclineAgreement(current: map<string, real>, previous: map<string, real>, materiality: real): (nat, real) {
    var engines := Overlapping(current, previous);
    var declining := Counting.CountIf(Declines(current, previous, materiality), engines);
    (declining, Rate(declining, |engines|))
  }

  function Confidence(engineAgreement: real, repetitionAgreement: real, evidence: real): real {
    Round((engineAgreement + repetitionAgreement + evidence) / 3.0, 10000.0)
  }

  /** The confidence of a prompt's trend is a fraction, however many of its rows were scored, whatever the
      scores and whatever ran before. */
  lemma TrendConfidenceIsFraction(a: Audit, p: int, observed: nat, mentioned: nat, current: map<string, real>,
                                  previous: map<string, real>, materiality: real)
    requires Consistent(a) && mentioned <= observed <= |RowsOfPrompt(a, p)|
    ensures 0.0 <= Confidence(DeclineAgreement(current, previous, materiality).1, Stability(mentioned, observed),
                              EvidenceCoverage(observed, |Engines(a)|, a.repetitions)) <= 1.0
  {
    hide Consistent, RowsOfPrompt, Engines, DeclineAgreement, Stability, EvidenceCoverage, Confidence;
    PromptEvidenceIsFraction(a, p, observed);
    StabilityBounds(mentioned, observed);
    DeclineAgreementBounds(current, previous, materiality);
    ConfidenceBounds(DeclineAgreement(current, previous, materiality).1, Stability(mentioned, observed),
                     EvidenceCoverage(observed, |Engines(a)|, a.repetitions));
  }

  lemma StabilityBounds(trueCount: nat, repetitions: nat)
    requires trueCount <= repetitions
    ensures 0.0 <= Stability(trueCount, repetitions) <= 1.0
  {
    RateBounds(if trueCount >= repetitions - trueCount then trueCount else repetitions - trueCount, repetitions);
  }

  lemma DeclineAgreementBounds(current: map<string, real>, previous: map<string, real>, materiality: real)
    ensures 0.0 <= DeclineAgreement(current, previous, materiality).1 <= 1.0
  {
    var engines := Overlapping(current, previous);
    Counting.CountIsSum(Declines(current, previous, materiality), engines);
    RateBounds(Counting.CountIf(Declines(current, previous, materiality), engines), |engines|);
  }

  lemma ConfidenceBounds(x: real, y: real, z: real)
    requires 0.0 <= x <= 1.0 && 0.0 <= y <= 1.0 && 0.0 <= z <= 1.0
    ensures 0.0 <= Confidence(x, y, z) <= 1.0
  {
  }

  // ----- What the numbers mean -----

  /** Coverage is the share, to four places, of the requested slots that have an analysis: a slot for each prompt of
      the cohorts, each engine that has a task, and each repetition. */
  lemma CoverageMeans(a: Audit, cohorts: set<string>)
    ensures Near(CohortCoverage(a, cohorts),
                 |set x | x in a.analyses
                          && (if a.analyses[x].promptIndex in a.cohorts then a.cohorts[a.analyses[x].promptIndex]
                              else "core") in cohorts|,
                 |set p | p in a.cohorts && a.cohorts[p] in cohorts|
                 * (|set t | t in a.tasks :: a.tasks[t].engine| * a.repetitions))
  {
    assert RowsIn(a, cohorts)
        == set x | x in a.analyses
                   && (if a.analyses[x].promptIndex in a.cohorts then a.cohorts[a.analyses[x].promptIndex]
                       else "core") in cohorts;
    RateIsNear(|RowsIn(a, cohorts)|, Requested(a, cohorts));
  }

  /** Evidence coverage is the observed share of a prompt's slots; stability the share of the more frequent answer. */
  lemma EvidenceMeans(observed: nat, engineCount: nat, repetitions: nat, mentioned: nat)
    requires mentioned <= observed
    ensures Near(EvidenceCoverage(observed, engineCount, repetitions), observed, engineCount * repetitions)
    ensures mentioned * 2 >= observed ==> Near(Stability(mentioned, observed), mentioned, observed)
    ensures mentioned * 2 <= observed ==> Near(Stability(mentioned, observed), observed - mentioned, observed)
  {
    RateIsNear(observed, engineCount * repetitions);
    RateIsNear(mentioned, observed);
    RateIsNear(observed - mentioned, observed);
  }

  /** The engines counted as declining are those in both runs whose score fell by the material amount or more; their
      share is of the engines in both. */
  lemma DeclineMeans(current: map<string, real>, previous: map<string, real>, materiality: real)
    ensures var declining := set e | e in current && e in previous && previous[e] - current[e] >= materiality;
            && DeclineAgreement(current, previous, materiality).0 == |declining|
            && Near(DeclineAgreement(current, previous, materiality).1, |declining|, |current.Keys * previous.Keys|)
  {
    DecliningAre(current, previous, materiality);
    RateIsNear(DeclineAgreement(current, previous, materiality).0, |current.Keys * previous.Keys|);
  }

  /** The engines in both runs that fell by the material amount. */
  function DecliningEngines(current: map<string, real>, previous: map<string, real>, materiality: real): set<string> {
    set e | e in current && e in previous && previous[e] - current[e] >= materiality
  }

  lemma DecliningAre(current: map<string, real>, previous: map<string, real>, materiality: real)
    ensures DeclineAgreement(current, previous, materiality).0 == |DecliningEngines(current, previous, materiality)|
  {
    hide Declines, DecliningEngines, Counting.Holding, Counting.CountIf;
    Ordering.SortedStringsDistinct(current.Keys * previous.Keys);
    Counting.DistinctCount(Declines(current, previous, materiality), Overlapping(current, previous));
    DecliningSet(current, previous, materiality);
  }

  lemma DecliningSet(current: map<string, real>, previous: map<string, real>, materiality: real)
    ensures Counting.Holding(Declines(current, previous, materiality), Overlapping(current, previous))
         == DecliningEngines(current, previous, materiality)
  {
  }

  /** Confidence is the plain mean of the three, to four places. */
  lemma ConfidenceMeans(engines: real, repetitions: real, evidence: real)
    ensures -0.00005 <= Confidence(engines, repetitions, evidence) - (engines + repetitions + evidence) / 3.0 <= 0.00005
  {
    RoundError((engines + repetitions + evidence) / 3.0, 10000.0);
  }

  /** The slot constraint is what keeps coverage below one: with one analysis a task but tasks that share a
      slot, it can be any number. */
  lemma SharedSlotOvercounts(n: nat) returns (a: Audit)
    requires n > 1
    ensures !Consistent(a) && CohortCoverage(a, {"core"}) == n as real
    ensures forall x, y :: x in a.analyses && y in a.analyses && a.analyses[x].taskId == a.analyses[y].taskId ==> x == y
  {
    var task := Task(0, 0, "gemini");
    var ids := set id: Id | id in Repetitions(n);
    assert ids == Repetitions(n);
    a := Audit(1, map[0 := "core"], map id | id in ids :: task, map id | id in ids :: Analysis(id, 0, "gemini"));
    assert a.tasks[0] == a.tasks[1];
    assert RowsIn(a, {"core"}) == ids;
    assert PromptsIn(a, {"core"}) == {0};
    assert a.tasks[0].engine in Engines(a);
    assert Engines(a) == {"gemini"};
    WholeRate(n);
  }

  lemma WholeRate(n: nat)
    ensures Rate(n, 1) == n as real
  {
    RoundExact(n * 10000, 10000.0);
  }
}
