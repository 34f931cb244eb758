/** Share of voice: the split of all mentions between the brand and its competitors. */
module ShareOfVoice {
  import opened Executions
  import opened RunAggregation
  import CitationShare
  import Counting
  import Ordering

  /** The counts of a table, added up. */
  function Sum(counts: map<string, nat>): int {
    Counting.SumBy(CitationShare.CountBy(counts), Ordering.SortedStrings(counts.Keys))
  }

  lemma {:induction false} SumNonNegative(counts: map<string, nat>, names: seq<string>)
    ensures Counting.SumBy(CitationShare.CountBy(counts), names) >= 0
  {
    if names != [] { SumNonNegative(counts, names[1..]); }
  }

  /** The volume: brand mentions plus every competitor's, before the two share one table. */
  function TotalMentions(config: Config, completed: seq<Execution>): nat {
    var rivals := RivalMentions(config.competitors, completed);
    SumNonNegative(rivals, Ordering.SortedStrings(rivals.Keys));
    CountSignal(Mentioned, completed) + Sum(rivals)
  }

  /** The table of mention counts. */
  function Entities(config: Config, completed: seq<Execution>): map<string, nat> {
    MentionCounts(config.brand, config.competitors, completed)
  }

  lemma MergedCounts(name: string, count: nat, table: map<string, nat>)
    ensures var merged := map[name := count] + table;
            && merged.Keys == table.Keys + {name}
            && (name in table ==> merged == table)
            && (forall d :: d in table ==> CitationShare.CountBy(merged)(d) == CitationShare.CountBy(table)(d))
            && (name !in table ==> CitationShare.CountBy(merged)(name) == count)
  {
  }

  lemma SumCons(f: string -> int, first: string, names: seq<string>)
    ensures Counting.SumBy(f, [first] + names) == f(first) + Counting.SumBy(f, names)
  {
  }

  /** Merging one entry in front of a table adds its count, unless the table overwrites it. */
  lemma MergedSum(name: string, count: nat, table: map<string, nat>)
    ensures Sum(map[name := count] + table) == Sum(table) + (if name in table then 0 else count)
  {
    hide CitationShare.CountBy, Counting.SumBy, Ordering.SortedStrings;
    MergedCounts(name, count, table);
    if name !in table {
      var merged := map[name := count] + table;
      var f := CitationShare.CountBy(merged);
      var names := Ordering.SortedStrings(table.Keys);
      Ordering.SortedStringsDistinct(table.Keys);
      Counting.SumBySame(f, CitationShare.CountBy(table), names);
      SumCons(f, name, names);
      Counting.SumOverSet(f, [name] + names, merged.Keys);
    }
  }

  /** Mentions in the volume that no entry of the table lists: the brand's, when a competitor has its name. */
  function Unlisted(config: Config, completed: seq<Execution>): nat {
    if BrandKey(config) in config.competitors then CountSignal(Mentioned, completed) else 0
  }

  /** The listed counts add up to the volume less what is unlisted, so to all of it exactly when no competitor
      has the brand's name, or the brand was never mentioned. */
  lemma MentionsConservedIff(config: Config, completed: seq<Execution>)
    ensures Sum(Entities(config, completed)) == TotalMentions(config, completed) - Unlisted(config, completed)
    ensures Sum(Entities(config, completed)) == TotalMentions(config, completed)
       <==> BrandKey(config) !in config.competitors || CountSignal(Mentioned, completed) == 0
  {
    hide CountSignal, Sum;
    MergedSum(BrandKey(config), CountSignal(Mentioned, completed), RivalMentions(config.competitors, completed));
  }

  /** The reported shares, added up. */
  function SumOfShares(config: Config, completed: seq<Execution>): real {
    var entities := Entities(config, completed);
    CitationShare.SumOfRates(entities, Ordering.SortedStrings(entities.Keys), TotalMentions(config, completed))
  }

  /** Once there is a mention, the rounded shares sum to the listed part of the volume, within half a unit of
      the last place for each name. */
  lemma SharesSumToListedPart(config: Config, completed: seq<Execution>)
    requires TotalMentions(config, completed) > 0
    ensures var (names, total) := (|Entities(config, completed)|, TotalMentions(config, completed));
            -(0.00005 * names as real)
              <= SumOfShares(config, completed) - (total - Unlisted(config, completed)) as real / total as real
              <= 0.00005 * names as real
  {
    hide Entities, TotalMentions, Unlisted, CitationShare.SumOfRates, Counting.SumBy, Ordering.SortedStrings;
    var entities := Entities(config, completed);
    MentionsConservedIff(config, completed);
    CitationShare.RatesNearSum(entities, Ordering.SortedStrings(entities.Keys), TotalMentions(config, completed));
  }

  /** So they sum to one, up to rounding, exactly as far as the table lists every mention. */
  lemma SharesSumToOne(config: Config, completed: seq<Execution>)
    requires TotalMentions(config, completed) > 0
    requires BrandKey(config) !in config.competitors || CountSignal(Mentioned, completed) == 0
    ensures var names := |Entities(config, completed)|;
            -(0.00005 * names as real) <= SumOfShares(config, completed) - 1.0 <= 0.00005 * names as real
  {
    hide Entities, TotalMentions, SumOfShares;
    SharesSumToListedPart(config, completed);
    CitationShare.WholeShare(TotalMentions(config, completed));
  }
}
