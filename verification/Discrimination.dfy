/** The gold-versus-generated discrimination test: a keyed shuffle, a judge's labels, a score. */
module Discrimination {
  import opened Options
  import opened Normalization
  import Ordering
  import Counting

  datatype Item = Item(text: string, generated: bool)

  /** One entry of the judge's reply; the id is missing when it was omitted or unreadable. */
  datatype LabelEntry = NotAnObject | Label(source: string, id: Option<int>)

  datatype Realism = Realism(score: real, detection: real, falsePositive: real)

  datatype Result = Ok(value: Realism) | LabelsMissing | OneSided

  const MACHINE := "machine"

  // ----- Items -----

  /** The gold prompts, capped at four more than the generated ones, then the generated ones. */
  function Interleaved(gold: seq<string>, prompts: seq<string>): seq<Item> {
    var kept := if |gold| <= |prompts| + 4 then gold else gold[..|prompts| + 4];
    seq(|kept|, i requires 0 <= i < |kept| => Item(kept[i], false))
    + seq(|prompts|, i requires 0 <= i < |prompts| => Item(prompts[i], true))
  }

  /** The items: the first gold prompts, as many as there are but at most four more than the generated ones, and then
      every generated prompt, each with its kind. */
  lemma InterleavedIs(gold: seq<string>, prompts: seq<string>)
    ensures var items := Interleaved(gold, prompts);
            var kept := if |gold| < |prompts| + 4 then |gold| else |prompts| + 4;
            && |items| == kept + |prompts|
            && (forall i :: 0 <= i < kept ==> items[i] == Item(gold[i], false))
            && (forall i :: 0 <= i < |prompts| ==> items[kept + i] == Item(prompts[i], true))
  {
  }

  function ByDigest(digest: string -> nat): (Item, Item) -> bool {
    (a: Item, b: Item) => digest(a.text) <= digest(b.text)
  }

  /** Builds the list, sorts it by digest; a position in the result is the id shown to the judge. */
  method DiscriminationItems(gold: seq<string>, prompts: seq<string>, digest: string -> nat) returns (items: seq<Item>)
    ensures multiset(items) == multiset(Interleaved(gold, prompts))
    ensures forall i, j :: 0 <= i < j < |items| ==> digest(items[i].text) <= digest(items[j].text)
    ensures forall i, j :: 0 <= i < j < |items| && digest(items[i].text) == digest(items[j].text) ==>
              Ordering.OccursBefore(Interleaved(gold, prompts), items[i], items[j])
    ensures items == Ordering.Sort(ByDigest(digest), Interleaved(gold, prompts))
  {
    items := Interleaved(gold, prompts);
    items := Ordering.Sort(ByDigest(digest), items);
    Ordering.SortSorts(ByDigest(digest), Interleaved(gold, prompts));
    forall i, j | 0 <= i < j < |items|
      ensures digest(items[i].text) <= digest(items[j].text)
      ensures digest(items[i].text) == digest(items[j].text) ==>
                Ordering.OccursBefore(Interleaved(gold, prompts), items[i], items[j])
    {
      assert ByDigest(digest)(items[i], items[j]);
      if ByDigest(digest)(items[j], items[i]) {
        Ordering.SortIsStable(ByDigest(digest), Interleaved(gold, prompts), i, j);
      }
    }
  }

  // ----- Score -----

  function CalledMachine(labels: seq<LabelEntry>): set<int> {
    set l | l in labels && l.Label? && Casefold(l.source) == MACHINE && l.id.Some? :: l.id.value
  }

  function Ids(items: seq<Item>, generated: bool): set<int> {
    set i | 0 <= i < |items| && items[i].generated == generated
  }

  function Ratio(a: nat, b: nat): real
    requires b > 0
  {
    a as real / b as real
  }

  function Clamp(x: real): real {
    if x < 0.0 then 0.0 else if x > 100.0 then 100.0 else x
  }

  function ScoreDiscrimination(labels: Option<seq<LabelEntry>>, items: seq<Item>): Result {
    if labels.None? then LabelsMissing
    else
      var called, generated, human := CalledMachine(labels.value), Ids(items, true), Ids(items, false);
      if generated == {} || human == {} then OneSided
      else
        var detection := Ratio(|called * generated|, |generated|);
        var falsePositive := Ratio(|called * human|, |human|);
        Ok(Realism(Clamp(100.0 * (1.0 - (detection - falsePositive))), detection, falsePositive))
  }

  lemma RatioBounds(a: nat, b: nat)
    requires a <= b && b > 0
    ensures 0.0 <= Ratio(a, b) <= 1.0
    ensures a == b ==> Ratio(a, b) == 1.0
    ensures a == 0 ==> Ratio(a, b) == 0.0
  {
  }

  /** Both rates are fractions, the score is a percentage, and it is the plain difference formula: the clamp
      only ever cuts a judge who is right less often than wrong. */
  lemma ScoreBounds(labels: Option<seq<LabelEntry>>, items: seq<Item>)
    ensures var r := ScoreDiscrimination(labels, items);
            r.Ok? ==>
              && 0.0 <= r.value.detection <= 1.0 && 0.0 <= r.value.falsePositive <= 1.0
              && 0.0 <= r.value.score <= 100.0
              && (r.value.score == 100.0 <==> r.value.detection <= r.value.falsePositive)
              && (r.value.detection >= r.value.falsePositive ==>
                    r.value.score == 100.0 * (1.0 - (r.value.detection - r.value.falsePositive)))
  {
    if labels.Some? {
      var called, generated, human := CalledMachine(labels.value), Ids(items, true), Ids(items, false);
      Ordering.SubsetCardinality(called * generated, generated);
      Ordering.SubsetCardinality(called * human, human);
      if generated != {} && human != {} {
        RatioBounds(|called * generated|, |generated|);
        RatioBounds(|called * human|, |human|);
      }
    }
  }

  /** The items of one kind that some entry of the reply names by id and calls machine-written, in any case. */
  ghost function CalledAt(labels: seq<LabelEntry>, items: seq<Item>, generated: bool): set<int> {
    set i | 0 <= i < |items| && items[i].generated == generated
      && exists l :: l in labels && l.Label? && l.id == Some(i) && Casefold(l.source) == "machine"
  }

  /** Detection is the share of the generated items called machine-written, the false-positive rate that of the
      gold ones; there is no score without labels, or without items of both kinds. */
  lemma RatesMean(labels: seq<LabelEntry>, items: seq<Item>)
    ensures ScoreDiscrimination(None, items) == LabelsMissing
    ensures var (g, h) := (set i | 0 <= i < |items| && items[i].generated, set i | 0 <= i < |items| && !items[i].generated);
            var r := ScoreDiscrimination(Some(labels), items);
            if g == {} || h == {} then r == OneSided
            else
              && r.Ok?
              && r.value.detection == |CalledAt(labels, items, true)| as real / |g| as real
              && r.value.falsePositive == |CalledAt(labels, items, false)| as real / |h| as real
  {
    var g, h := set i | 0 <= i < |items| && items[i].generated, set i | 0 <= i < |items| && !items[i].generated;
    assert Ids(items, true) == g && Ids(items, false) == h;
    CalledOfKind(labels, items, true);
    CalledOfKind(labels, items, false);
  }

  lemma CalledOfKind(labels: seq<LabelEntry>, items: seq<Item>, generated: bool)
    ensures CalledMachine(labels) * Ids(items, generated) == CalledAt(labels, items, generated)
  {
    hide Casefold;
    forall i ensures i in CalledMachine(labels) * Ids(items, generated) <==> i in CalledAt(labels, items, generated) {
    }
  }

  // ----- A judge who only reads the text -----

  /** The labels of a judge who calls a text machine-written or not, whoever wrote it. */
  function ReviewByText(judge: string -> bool, items: seq<Item>): seq<LabelEntry> {
    seq(|items|, i requires 0 <= i < |items| =>
      Label(if judge(items[i].text) then MACHINE else "human", Some(i)))
  }

  function Kind(generated: bool): Item -> bool {
    (item: Item) => item.generated == generated
  }

  function CalledKind(judge: string -> bool, generated: bool): Item -> bool {
    (item: Item) => item.generated == generated && judge(item.text)
  }

  lemma LiteralSources()
    ensures Casefold(MACHINE) == MACHINE && Casefold("human") != MACHINE
  {
  }

  lemma CalledByText(judge: string -> bool, items: seq<Item>, generated: bool)
    ensures CalledMachine(ReviewByText(judge, items)) * Ids(items, generated)
         == Counting.Positions(CalledKind(judge, generated), items)
    ensures Ids(items, generated) == Counting.Positions(Kind(generated), items)
  {
    var labels := ReviewByText(judge, items);
    LiteralSources();
    forall i ensures i in CalledMachine(labels) <==> 0 <= i < |items| && judge(items[i].text) {
      if 0 <= i < |items| && judge(items[i].text) { assert labels[i] in labels; }
    }
  }

  /** The counts that decide the score of a text-only judge. */
  function Tally(judge: string -> bool, items: seq<Item>): (nat, nat, nat, nat) {
    (Counting.CountIf(CalledKind(judge, true), items), Counting.CountIf(Kind(true), items),
     Counting.CountIf(CalledKind(judge, false), items), Counting.CountIf(Kind(false), items))
  }

  function FromTally(t: (nat, nat, nat, nat)): Result {
    if t.1 == 0 || t.3 == 0 then OneSided
    else
      Ok(Realism(Clamp(100.0 * (1.0 - (Ratio(t.0, t.1) - Ratio(t.2, t.3)))), Ratio(t.0, t.1), Ratio(t.2, t.3)))
  }

  lemma ScoreIsTally(judge: string -> bool, items: seq<Item>)
    ensures ScoreDiscrimination(Some(ReviewByText(judge, items)), items) == FromTally(Tally(judge, items))
  {
    CalledByText(judge, items, true);
    CalledByText(judge, items, false);
    Counting.PositionsCount(CalledKind(judge, true), items);
    Counting.PositionsCount(CalledKind(judge, false), items);
    Counting.PositionsCount(Kind(true), items);
    Counting.PositionsCount(Kind(false), items);
  }

  /** For a judge who only reads the text, every shuffle gives the same rates and the same score. */
  lemma ScoreIsShuffleIndependent(judge: string -> bool, a: seq<Item>, b: seq<Item>)
    requires multiset(a) == multiset(b)
    ensures ScoreDiscrimination(Some(ReviewByText(judge, a)), a) == ScoreDiscrimination(Some(ReviewByText(judge, b)), b)
  {
    ScoreIsTally(judge, a);
    ScoreIsTally(judge, b);
    Counting.CountIfPermuted(CalledKind(judge, true), a, b);
    Counting.CountIfPermuted(CalledKind(judge, false), a, b);
    Counting.CountIfPermuted(Kind(true), a, b);
    Counting.CountIfPermuted(Kind(false), a, b);
  }

  /** In particular the seed does not matter. */
  lemma SeedDoesNotMatter(judge: string -> bool, gold: seq<string>, prompts: seq<string>,
                          digest: string -> nat, digest': string -> nat)
    ensures var a := Ordering.Sort(ByDigest(digest), Interleaved(gold, prompts));
            var b := Ordering.Sort(ByDigest(digest'), Interleaved(gold, prompts));
            ScoreDiscrimination(Some(ReviewByText(judge, a)), a) == ScoreDiscrimination(Some(ReviewByText(judge, b)), b)
  {
    ScoreIsShuffleIndependent(judge, Ordering.Sort(ByDigest(digest), Interleaved(gold, prompts)),
                              Ordering.Sort(ByDigest(digest'), Interleaved(gold, prompts)));
  }

  /** Leniency cancels: calling everything machine-written, or nothing, both score 100. */
  lemma UniformJudgesScoreFull(judge: string -> bool, items: seq<Item>, answer: bool)
    requires forall text :: judge(text) == answer
    requires Ids(items, true) != {} && Ids(items, false) != {}
    ensures var r := ScoreDiscrimination(Some(ReviewByText(judge, items)), items);
            && r.Ok? && r.value.score == 100.0
            && r.value.detection == r.value.falsePositive == (if answer then 1.0 else 0.0)
  {
    hide CalledMachine, ReviewByText, Ids, Ratio, Counting.Positions;
    var called := CalledMachine(ReviewByText(judge, items));
    UniformCalls(judge, items, answer, true);
    UniformCalls(judge, items, answer, false);
    RatioBounds(|called * Ids(items, true)|, |Ids(items, true)|);
    RatioBounds(|called * Ids(items, false)|, |Ids(items, false)|);
  }

  lemma UniformCalls(judge: string -> bool, items: seq<Item>, answer: bool, generated: bool)
    requires forall text :: judge(text) == answer
    ensures CalledMachine(ReviewByText(judge, items)) * Ids(items, generated) == if answer then Ids(items, generated) else {}
  {
    CalledByText(judge, items, generated);
  }
}
