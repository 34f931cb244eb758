/** Citation domains of a run: the counting loop, the top-25 shares with their remainder, and the per-domain rates. */
module CitationShare {
  import opened Options
  import opened Executions
  import opened Rounding
  import Ordering
  import Counting

  // ----- What the counters hold -----

  predicate HasDomain(c: Citation) { c.domain != "" }

  /** The resolved domains, in citation order. */
  function DomainsOf(citations: seq<Citation>): seq<string> {
    if citations == [] then []
    else DomainsOf(citations[..|citations| - 1])
         + (if HasDomain(citations[|citations| - 1]) then [citations[|citations| - 1].domain] else [])
  }

  function Domains(completed: seq<Execution>): seq<string> {
    if completed == [] then []
    else Domains(completed[..|completed| - 1]) + DomainsOf(completed[|completed| - 1].citations)
  }

  /** Each value once, in order of first occurrence. */
  function Distinct(s: seq<string>): (r: seq<string>)
    ensures Ordering.NoDuplicates(r)
    ensures forall x :: x in r <==> x in s
  {
    if s == [] then []
    else
      var before, last := Distinct(s[..|s| - 1]), s[|s| - 1];
      assert s == s[..|s| - 1] + [last];
      if last in before then before else before + [last]
  }

  function Equals(d: string): string -> bool { (x: string) => x == d }

  function Occurrences(d: string, s: seq<string>): nat { Counting.CountIf(Equals(d), s) }

  predicate CitesIn(d: string, citations: seq<Citation>) {
    exists c :: c in citations && HasDomain(c) && c.domain == d
  }

  function CitesDomain(d: string): Execution -> bool { (e: Execution) => CitesIn(d, e.citations) }

  function PromptsCiting(d: string, completed: seq<Execution>): set<int> {
    set e | e in completed && CitesIn(d, e.citations) :: e.promptIndex
  }

  function UrlsIn(d: string, citations: seq<Citation>): set<string> {
    set c | c in citations && HasDomain(c) && c.domain == d && c.url != "" :: c.url
  }

  function UrlsCited(d: string, completed: seq<Execution>): set<string> {
    set e, url | e in completed && url in UrlsIn(d, e.citations) :: url
  }

  /** A counter with its keys in insertion order. */
  datatype Counter = Counter(keys: seq<string>, counts: map<string, nat>)

  /** The counter of a list of domains. */
  ghost predicate Counts(counter: Counter, seen: seq<string>) {
    && counter.keys == Distinct(seen)
    && (forall d :: d in counter.counts <==> d in seen)
    && (forall d :: d in seen ==> counter.counts[d] == Occurrences(d, seen))
  }

  method Increment(counter: Counter, d: string, ghost seen: seq<string>) returns (r: Counter)
    requires Counts(counter, seen)
    ensures Counts(r, seen + [d])
  {
    hide Distinct, Occurrences;
    DistinctAppend(seen, d);
    OccurrencesAppend(seen, d);
    if d in counter.counts {
      r := Counter(counter.keys, counter.counts[d := counter.counts[d] + 1]);
    } else {
      NeverSeen(d, seen);
      r := Counter(counter.keys + [d], counter.counts[d := 1]);
    }
  }

  lemma DistinctAppend(seen: seq<string>, d: string)
    ensures Distinct(seen + [d]) == if d in seen then Distinct(seen) else Distinct(seen) + [d]
  {
  }

  lemma OccurrencesAppend(seen: seq<string>, d: string)
    ensures forall x :: Occurrences(x, seen + [d]) == Occurrences(x, seen) + (if x == d then 1 else 0)
  {
    forall x ensures Occurrences(x, seen + [d]) == Occurrences(x, seen) + (if x == d then 1 else 0) {
      Counting.CountIfAppend(Equals(x), seen, [d]);
    }
  }

  lemma {:induction false} NeverSeen(d: string, seen: seq<string>)
    requires d !in seen
    ensures Occurrences(d, seen) == 0
  {
    if seen != [] { NeverSeen(d, seen[1..]); }
  }

  /** The per-domain sets hold what their name says, with an entry exactly where there is something to hold. */
  ghost predicate PromptSets(prompts: map<string, set<int>>, completed: seq<Execution>) {
    forall d :: (d in prompts <==> PromptsCiting(d, completed) != {})
      && (d in prompts ==> prompts[d] == PromptsCiting(d, completed))
  }

  ghost predicate UrlSets(urls: map<string, set<string>>, completed: seq<Execution>) {
    forall d :: (d in urls <==> UrlsCited(d, completed) != {})
      && (d in urls ==> urls[d] == UrlsCited(d, completed))
  }

  function AddTo<T>(m: map<string, set<T>>, d: string, x: T): map<string, set<T>> {
    m[d := (if d in m then m[d] else {}) + {x}]
  }

  lemma CitesPrefix(citations: seq<Citation>, k: nat)
    requires k < |citations|
    ensures forall d :: CitesIn(d, citations[..k + 1])
              <==> CitesIn(d, citations[..k]) || (HasDomain(citations[k]) && citations[k].domain == d)
    ensures forall d :: UrlsIn(d, citations[..k + 1])
              == UrlsIn(d, citations[..k])
                 + (var c := citations[k]; if HasDomain(c) && c.domain == d && c.url != "" then {c.url} else {})
    ensures DomainsOf(citations[..k + 1])
         == DomainsOf(citations[..k]) + (if HasDomain(citations[k]) then [citations[k].domain] else [])
  {
    var front, last := citations[..k], citations[k];
    assert citations[..k + 1] == front + [last];
    assert (front + [last])[..k] == front;
    forall d ensures CitesIn(d, front + [last]) <==> CitesIn(d, front) || (HasDomain(last) && last.domain == d) {
      assert forall c :: c in front + [last] <==> c in front || c == last;
      if HasDomain(last) && last.domain == d { assert last in front + [last]; }
      if CitesIn(d, front) {
        var c :| c in front && HasDomain(c) && c.domain == d;
        assert c in front + [last];
      }
    }
  }

  lemma LastExecution(before: seq<Execution>, e: Execution)
    ensures forall d :: PromptsCiting(d, before + [e])
              == PromptsCiting(d, before) + if CitesIn(d, e.citations) then {e.promptIndex} else {}
    ensures forall d :: UrlsCited(d, before + [e]) == UrlsCited(d, before) + UrlsIn(d, e.citations)
    ensures Domains(before + [e]) == Domains(before) + DomainsOf(e.citations)
  {
  }

  /** What has been counted after `before` and the first citations of one more execution. */
  ghost predicate CountedSoFar(before: seq<Execution>, e: Execution, counter: Counter,
                               prompts: map<string, set<int>>, urls: map<string, set<string>>) {
    && Counts(counter, Domains(before) + DomainsOf(e.citations))
    && PromptSets(prompts, before + [e])
    && UrlSets(urls, before + [e])
  }

  /** An execution with its first citations only. */
  function Upto(e: Execution, k: nat): Execution
    requires k <= |e.citations|
  {
    e.(citations := e.citations[..k])
  }

  lemma PromptStep(before: seq<Execution>, e: Execution, k: nat, prompts: map<string, set<int>>)
    requires k < |e.citations| && PromptSets(prompts, before + [Upto(e, k)])
    ensures PromptSets(if HasDomain(e.citations[k]) then AddTo(prompts, e.citations[k].domain, e.promptIndex) else prompts,
                       before + [Upto(e, k + 1)])
  {
    hide CitesIn, PromptsCiting;
    CitesPrefix(e.citations, k);
    LastExecution(before, Upto(e, k));
    LastExecution(before, Upto(e, k + 1));
  }

  lemma UrlStep(before: seq<Execution>, e: Execution, k: nat, urls: map<string, set<string>>)
    requires k < |e.citations| && UrlSets(urls, before + [Upto(e, k)])
    ensures var c := e.citations[k];
            UrlSets(if HasDomain(c) && c.url != "" then AddTo(urls, c.domain, c.url) else urls, before + [Upto(e, k + 1)])
  {
    hide UrlsIn, UrlsCited;
    CitesPrefix(e.citations, k);
    LastExecution(before, Upto(e, k));
    LastExecution(before, Upto(e, k + 1));
  }

  /** The inner loop over one execution's citations. */
  method CountCitations(e: Execution, counter0: Counter, prompts0: map<string, set<int>>, urls0: map<string, set<string>>,
                        ghost before: seq<Execution>)
    returns (counter: Counter, prompts: map<string, set<int>>, urls: map<string, set<string>>, seen: set<string>)
    requires Counts(counter0, Domains(before)) && PromptSets(prompts0, before) && UrlSets(urls0, before)
    ensures CountedSoFar(before, e, counter, prompts, urls)
    ensures forall d :: d in seen <==> CitesIn(d, e.citations)
  {
    hide Counts, CitesIn, PromptSets, UrlSets, UrlsIn;
    counter, prompts, urls, seen := counter0, prompts0, urls0, {};
    NothingCited(before, e, prompts, urls);
    assert Domains(before) + DomainsOf([]) == Domains(before);
    for k := 0 to |e.citations|
      invariant Counts(counter, Domains(before) + DomainsOf(e.citations[..k]))
      invariant PromptSets(prompts, before + [Upto(e, k)])
      invariant UrlSets(urls, before + [Upto(e, k)])
      invariant forall d :: d in seen <==> CitesIn(d, e.citations[..k])
    {
      var c := e.citations[k];
      CitesPrefix(e.citations, k);
      PromptStep(before, e, k, prompts);
      UrlStep(before, e, k, urls);
      if !HasDomain(c) {
        assert DomainsOf(e.citations[..k]) + [] == DomainsOf(e.citations[..k]);
        continue;
      }
      ghost var counted := Domains(before) + DomainsOf(e.citations[..k]);
      counter := Increment(counter, c.domain, counted);
      assert counted + [c.domain] == Domains(before) + (DomainsOf(e.citations[..k]) + [c.domain]);
      seen := seen + {c.domain};
      prompts := AddTo(prompts, c.domain, e.promptIndex);
      if c.url != "" {
        urls := AddTo(urls, c.domain, c.url);
      }
    }
    assert e.citations[..|e.citations|] == e.citations && Upto(e, |e.citations|) == e;
  }

  lemma NothingCited(before: seq<Execution>, e: Execution, prompts: map<string, set<int>>, urls: map<string, set<string>>)
    requires PromptSets(prompts, before) && UrlSets(urls, before)
    ensures PromptSets(prompts, before + [Upto(e, 0)]) && UrlSets(urls, before + [Upto(e, 0)])
    ensures forall d :: !CitesIn(d, [])
  {
  }

  /** `executions.update(seen)`: one more for each domain the execution cited. */
  function CountSeen(executions: map<string, nat>, seen: set<string>): map<string, nat> {
    map d | d in executions.Keys + seen ::
      (if d in executions then executions[d] else 0) + (if d in seen then 1 else 0)
  }

  function ExecutionsCiting(d: string, completed: seq<Execution>): nat { Counting.CountIf(CitesDomain(d), completed) }

  ghost predicate ExecutionCounts(executions: map<string, nat>, completed: seq<Execution>) {
    forall d :: (d in executions <==> ExecutionsCiting(d, completed) > 0)
      && (d in executions ==> executions[d] == ExecutionsCiting(d, completed))
  }

  lemma SeenStep(executions: map<string, nat>, completed: seq<Execution>, e: Execution, seen: set<string>)
    requires ExecutionCounts(executions, completed) && forall d :: d in seen <==> CitesIn(d, e.citations)
    ensures ExecutionCounts(CountSeen(executions, seen), completed + [e])
  {
    hide CitesIn;
    forall d ensures ExecutionsCiting(d, completed + [e])
                  == ExecutionsCiting(d, completed) + (if CitesIn(d, e.citations) then 1 else 0) {
      Counting.CountIfAppend(CitesDomain(d), completed, [e]);
    }
  }

  /** The whole counting loop: every counter and set holds exactly what the executions cite. */
  method CitationDomainCounts(completed: seq<Execution>)
    returns (counter: Counter, executions: map<string, nat>, prompts: map<string, set<int>>, urls: map<string, set<string>>)
    ensures Counts(counter, Domains(completed))
    ensures ExecutionCounts(executions, completed)
    ensures PromptSets(prompts, completed) && UrlSets(urls, completed)
  {
    hide Counts, ExecutionCounts, PromptSets, UrlSets, CitesIn;
    counter, executions, prompts, urls := Counter([], map[]), map[], map[], map[];
    NothingCounted();
    for i := 0 to |completed|
      invariant Counts(counter, Domains(completed[..i]))
      invariant ExecutionCounts(executions, completed[..i])
      invariant PromptSets(prompts, completed[..i]) && UrlSets(urls, completed[..i])
    {
      var seen;
      counter, prompts, urls, seen := CountCitations(completed[i], counter, prompts, urls, completed[..i]);
      SeenStep(executions, completed[..i], completed[i], seen);
      executions := CountSeen(executions, seen);
      LastExecution(completed[..i], completed[i]);
      assert completed[..i + 1] == completed[..i] + [completed[i]];
    }
    assert completed[..|completed|] == completed;
  }

  lemma NothingCounted()
    ensures Counts(Counter([], map[]), Domains([])) && ExecutionCounts(map[], [])
    ensures PromptSets(map[], []) && UrlSets(map[], [])
  {
  }

  // ----- What the counters mean -----

  function DomainIs(d: string): Citation -> bool { (c: Citation) => c.domain == d }

  lemma OneCitation(d: string, c: Citation)
    requires d != ""
    ensures Counting.CountIf(Equals(d), if HasDomain(c) then [c.domain] else []) == Counting.CountIf(DomainIs(d), [c])
  {
    assert [c][1..] == [] && [c.domain][1..] == [];
  }

  lemma {:induction false} OneExecutionsDomains(d: string, citations: seq<Citation>)
    requires d != ""
    ensures Occurrences(d, DomainsOf(citations)) == Counting.CountIf(DomainIs(d), citations)
  {
    if citations != [] {
      hide HasDomain, DomainIs, Equals;
      var front, last := citations[..|citations| - 1], citations[|citations| - 1];
      OneExecutionsDomains(d, front);
      OneCitation(d, last);
      hide Counting.CountIf;
      assert citations == front + [last];
      Counting.CountIfAppend(DomainIs(d), front, [last]);
      Counting.CountIfAppend(Equals(d), DomainsOf(front), if HasDomain(last) then [last.domain] else []);
    }
  }

  /** Every citation of a domain counts once: one more execution adds the citations of the domain it holds. */
  lemma CountMeans(d: string, completed: seq<Execution>, e: Execution)
    requires d != ""
    ensures Occurrences(d, Domains([])) == 0
    ensures Occurrences(d, Domains(completed + [e]))
         == Occurrences(d, Domains(completed)) + |set k | 0 <= k < |e.citations| && e.citations[k].domain == d|
  {
    LastExecution(completed, e);
    Counting.CountIfAppend(Equals(d), Domains(completed), DomainsOf(e.citations));
    OneExecutionsDomains(d, e.citations);
    Counting.PositionsCount(DomainIs(d), e.citations);
    assert Counting.Positions(DomainIs(d), e.citations) == set k | 0 <= k < |e.citations| && e.citations[k].domain == d;
  }

  lemma UrlCitedIff(d: string, completed: seq<Execution>, url: string)
    requires d != ""
    ensures url in UrlsCited(d, completed) <==>
              url != "" && exists e, c :: e in completed && c in e.citations && c.domain == d && c.url == url
  {
    if url in UrlsCited(d, completed) {
      var e :| e in completed && url in UrlsIn(d, e.citations);
      var c :| c in e.citations && HasDomain(c) && c.domain == d && c.url != "" && c.url == url;
    }
    if e, c :| e in completed && c in e.citations && c.domain == d && c.url == url && url != "" {
      assert url in UrlsIn(d, e.citations);
    }
  }

  /** The other tallies of a domain: the executions that cite it, their prompts, and the URLs it is cited at. */
  lemma TalliesMean(d: string, completed: seq<Execution>)
    requires d != ""
    ensures ExecutionsCiting(d, completed)
         == |set i | 0 <= i < |completed| && (exists c :: c in completed[i].citations && c.domain == d)|
    ensures forall p :: p in PromptsCiting(d, completed) <==>
              exists e, c :: e in completed && c in e.citations && c.domain == d && e.promptIndex == p
    ensures forall url :: url in UrlsCited(d, completed) <==>
              url != "" && exists e, c :: e in completed && c in e.citations && c.domain == d && c.url == url
  {
    forall url ensures url in UrlsCited(d, completed) <==>
      url != "" && exists e, c :: e in completed && c in e.citations && c.domain == d && c.url == url {
      UrlCitedIff(d, completed, url);
    }
    Counting.PositionsCount(CitesDomain(d), completed);
    assert Counting.Positions(CitesDomain(d), completed)
        == set i | 0 <= i < |completed| && exists c :: c in completed[i].citations && c.domain == d;
  }

  // ----- The top 25 and the remainder -----

  const TOP := 25

  function CountOf(counts: map<string, nat>, d: string): nat { if d in counts then counts[d] else 0 }

  function MoreFrequent(counts: map<string, nat>): (string, string) -> bool {
    (a: string, b: string) => CountOf(counts, a) >= CountOf(counts, b)
  }

  /** `most_common(25)`: by falling count, ties in insertion order. */
  function MostCommon(counter: Counter): seq<string> {
    var ranked := Ordering.Sort(MoreFrequent(counter.counts), counter.keys);
    if |ranked| <= TOP then ranked else ranked[..TOP]
  }

  function CountBy(counts: map<string, nat>): string -> int { (d: string) => CountOf(counts, d) }

  function TotalCitations(counter: Counter): int { Counting.SumBy(CountBy(counter.counts), counter.keys) }

  function Identity(d: string): string { d }

  /** Every citation with a resolved domain is counted once. */
  lemma TotalIsAllCitations(counter: Counter, seen: seq<string>)
    requires Counts(counter, seen)
    ensures TotalCitations(counter) == |seen|
  {
    forall d ensures Counting.PartSum(Identity, Counting.One, seen)(d) == Occurrences(d, seen) {
      OccurrencesArePart(d, seen);
    }
    forall d | d in counter.keys ensures CountBy(counter.counts)(d) == Counting.PartSum(Identity, Counting.One, seen)(d) {
      assert d in seen;
    }
    Counting.SumBySame(CountBy(counter.counts), Counting.PartSum(Identity, Counting.One, seen), counter.keys);
    Counting.PartitionSums(Identity, Counting.One, counter.keys, seen);
    Counting.OnesAreLength(seen);
  }

  lemma OccurrencesArePart(d: string, seen: seq<string>)
    ensures Counting.SumBy(Counting.One, Counting.Part(Identity, d, seen)) == Occurrences(d, seen)
  {
    Counting.OnesAreLength(Counting.Part(Identity, d, seen));
    Counting.FilterSums(Counting.KeyIs(Identity, d), Counting.One, seen);
    forall x ensures Counting.KeyIs(Identity, d)(x) == Equals(d)(x) { assert Identity(x) == x; }
    Counting.CountIfSame(Counting.KeyIs(Identity, d), Equals(d), seen);
  }

  function Shown(counter: Counter): int { Counting.SumBy(CountBy(counter.counts), MostCommon(counter)) }

  /** The count reported as "Other", if any. */
  function OtherCount(counter: Counter): Option<int> {
    var rest := TotalCitations(counter) - Shown(counter);
    if rest > 0 then Some(rest) else None
  }

  lemma {:induction false} SumAtLeast(counts: map<string, nat>, keys: seq<string>)
    requires forall d :: d in keys ==> CountOf(counts, d) >= 1
    ensures Counting.SumBy(CountBy(counts), keys) >= |keys|
  {
    if keys != [] { SumAtLeast(counts, keys[1..]); }
  }

  lemma PositiveCounts(counter: Counter, seen: seq<string>)
    requires Counts(counter, seen)
    ensures forall d :: d in counter.keys ==> CountOf(counter.counts, d) >= 1
  {
    forall d | d in counter.keys ensures CountOf(counter.counts, d) >= 1 { SeenOnce(d, seen); }
  }

  lemma {:induction false} SeenOnce(d: string, seen: seq<string>)
    requires d in seen
    ensures Occurrences(d, seen) >= 1
  {
    if d != seen[0] { SeenOnce(d, seen[1..]); }
  }

  /** The shown counts and the remainder are all the citations, and there is a remainder exactly when more
      than 25 domains occur. */
  lemma CountsConserved(counter: Counter, seen: seq<string>)
    requires Counts(counter, seen)
    ensures Shown(counter) + (if OtherCount(counter).Some? then OtherCount(counter).value else 0) == |seen|
    ensures OtherCount(counter).Some? <==> |counter.keys| > 25
    ensures |MostCommon(counter)| == if |counter.keys| <= 25 then |counter.keys| else 25
  {
    hide CountOf, Counts, Distinct;
    var ranked := Ordering.Sort(MoreFrequent(counter.counts), counter.keys);
    Counting.SumByPermuted(CountBy(counter.counts), ranked, counter.keys);
    TotalIsAllCitations(counter, seen);
    if |ranked| > TOP {
      assert ranked == ranked[..TOP] + ranked[TOP..];
      Counting.SumByAppend(CountBy(counter.counts), ranked[..TOP], ranked[TOP..]);
      PositiveCounts(counter, seen);
      Ordering.SameElements(ranked, counter.keys);
      SumAtLeast(counter.counts, ranked[TOP..]);
    }
  }

  /** No domain left out is cited more often than one that is shown. */
  lemma ShownAreMostCited(counter: Counter, shown: string, left: string)
    requires shown in MostCommon(counter) && left in counter.keys && left !in MostCommon(counter)
    ensures CountOf(counter.counts, shown) >= CountOf(counter.counts, left)
  {
    var le := MoreFrequent(counter.counts);
    var ranked := Ordering.Sort(le, counter.keys);
    assert Ordering.TotalPreorder(le);
    Ordering.SortSorts(le, counter.keys);
    Ordering.SameElements(ranked, counter.keys);
    var i :| 0 <= i < |ranked| && ranked[i] == left;
    var top := MostCommon(counter);
    assert forall t :: 0 <= t < |top| ==> ranked[t] == top[t] && ranked[t] in top;
    var j :| 0 <= j < |top| && top[j] == shown;
    assert j < |top| <= i;
    assert le(ranked[j], ranked[i]);
  }

  /** The domains shown come by falling count, and with equal counts in the order first cited. */
  lemma ShownInOrder(counter: Counter, i: nat, j: nat)
    requires i < j < |MostCommon(counter)|
    ensures var (a, b) := (MostCommon(counter)[i], MostCommon(counter)[j]);
            && CountOf(counter.counts, a) >= CountOf(counter.counts, b)
            && (CountOf(counter.counts, a) == CountOf(counter.counts, b) ==> Ordering.OccursBefore(counter.keys, a, b))
  {
    hide CountOf;
    var le := MoreFrequent(counter.counts);
    var ranked := Ordering.Sort(le, counter.keys);
    Ordering.SortSorts(le, counter.keys);
    assert le(ranked[i], ranked[j]);
    if le(ranked[j], ranked[i]) { Ordering.SortIsStable(le, counter.keys, i, j); }
  }

  // ----- Shares -----

  function SumOfRates(counts: map<string, nat>, keys: seq<string>, total: nat): real {
    if keys == [] then 0.0 else Rate(CountOf(counts, keys[0]), total) + SumOfRates(counts, keys[1..], total)
  }

  /** The sum of all the shares reported, "Other" included. */
  function SumOfShares(counter: Counter): real {
    var total := TotalCitations(counter);
    if total < 0 then 0.0
    else
      SumOfRates(counter.counts, MostCommon(counter), total)
      + (if OtherCount(counter).Some? then Rate(OtherCount(counter).value, total) else 0.0)
  }

  lemma AddQuotients(a: int, b: int, n: real)
    requires n > 0.0
    ensures a as real / n + b as real / n == (a + b) as real / n
  {
  }

  lemma {:induction false} RatesNearSum(counts: map<string, nat>, keys: seq<string>, total: nat)
    requires total > 0
    ensures var exact := Counting.SumBy(CountBy(counts), keys) as real / total as real;
            -(0.00005 * |keys| as real) <= SumOfRates(counts, keys, total) - exact <= 0.00005 * |keys| as real
  {
    hide Rate, CountOf;
    if keys != [] {
      RatesNearSum(counts, keys[1..], total);
      RateError(CountOf(counts, keys[0]), total);
      AddQuotients(CountOf(counts, keys[0]), Counting.SumBy(CountBy(counts), keys[1..]), total as real);
    }
  }

  lemma WholeShare(total: nat)
    requires total > 0
    ensures total as real / total as real == 1.0
  {
  }

  /** The rounded shares of a run with citations sum to one within 26 half-units of the last place. */
  lemma SharesSumToOne(counter: Counter, seen: seq<string>)
    requires Counts(counter, seen) && seen != []
    ensures -(26.0 * 0.00005) <= SumOfShares(counter) - 1.0 <= 26.0 * 0.00005
  {
    hide Rate, CountOf, Counts, MostCommon, SumOfRates, Counting.SumBy;
    CountsConserved(counter, seen);
    TotalIsAllCitations(counter, seen);
    var total := |seen|;
    RatesNearSum(counter.counts, MostCommon(counter), total);
    var other := OtherCount(counter);
    if other.Some? {
      RateError(other.value, total);
      AddQuotients(Shown(counter), other.value, total as real);
    }
    WholeShare(total);
  }

  // ----- Per-domain rates -----

  function AllUrls(urls: map<string, set<string>>): set<string> {
    set d, url | d in urls && url in urls[d] :: url
  }

  function PromptIndices(completed: seq<Execution>): set<int> {
    set e | e in completed :: e.promptIndex
  }

  /** Every domain's execution rate, prompt coverage and share of the distinct URLs is a fraction. */
  lemma DomainRatesAreFractions(completed: seq<Execution>, executions: map<string, nat>,
                                prompts: map<string, set<int>>, urls: map<string, set<string>>, d: string)
    requires ExecutionCounts(executions, completed) && PromptSets(prompts, completed) && UrlSets(urls, completed)
    requires d in executions
    ensures 0.0 <= Rate(executions[d], |completed|) <= 1.0
    ensures 0.0 <= Rate(|if d in prompts then prompts[d] else {}|, |PromptIndices(completed)|) <= 1.0
    ensures 0.0 <= Rate(|if d in urls then urls[d] else {}|, |AllUrls(urls)|) <= 1.0
  {
    hide Rate, CitesIn;
    Counting.CountIsSum(CitesDomain(d), completed);
    RateBounds(executions[d], |completed|);
    var cited := if d in prompts then prompts[d] else {};
    assert cited <= PromptIndices(completed);
    Ordering.SubsetCardinality(cited, PromptIndices(completed));
    RateBounds(|cited|, |PromptIndices(completed)|);
    var found := if d in urls then urls[d] else {};
    assert found <= AllUrls(urls);
    Ordering.SubsetCardinality(found, AllUrls(urls));
    RateBounds(|found|, |AllUrls(urls)|);
  }
}
