/** Third-party domains that several prompts and engines cite, ranked for human review. */
module ObservedCompetitors {
  import opened Options
  import Normalization
  import Counting
  import Ordering

  const MIN_DISTINCT_PROMPTS := 2
  const MIN_DISTINCT_ENGINES := 2
  const MAX_CANDIDATES_PER_AUDIT := 20
  const ORGANIC_PROMPT_COHORTS := {"core"}

  /** Sites that are cited everywhere and compete with nobody. */
  const EXCLUDED_RESEARCH_DOMAINS :=
    {"wikipedia.org", "youtube.com", "reddit.com", "linkedin.com", "facebook.com", "instagram.com", "x.com"}

  datatype Citation = Citation(domain: string, analysis: string)

  datatype Analysis = Analysis(prompt: int, engine: string, cohort: string, artifact: Option<string>)

  type Analyses = map<string, Analysis>

  datatype Evidence = Evidence(prompts: set<int>, engines: set<string>, analyses: seq<string>, artifacts: seq<string>)

  datatype Candidate = Candidate(domain: string, prompts: nat, engines: nat, analyses: seq<string>, artifacts: seq<string>)

  // ----- Domains -----

  predicate EndsWith(s: string, suffix: string) {
    |suffix| <= |s| && s[|s| - |suffix|..] == suffix
  }

  function Clean(domain: string): string {
    var low := Normalization.Casefold(domain);
    if "www." <= low then low[4..] else low
  }

  predicate DomainMatches(domain: string, item: string) {
    domain == item || EndsWith(domain, "." + item)
  }

  predicate DomainMatchesAny(domain: string, excluded: set<string>) {
    exists item :: item in excluded && DomainMatches(domain, item)
  }

  function Cleaned(domains: seq<string>): set<string> {
    set d | d in domains :: Clean(d)
  }

  /** Everything never suggested: research sites, and the audited brand's own, unintended and tracked domains. */
  function Excluded(owned: seq<string>, unintended: seq<string>, tracked: seq<string>): set<string> {
    EXCLUDED_RESEARCH_DOMAINS + Cleaned(owned) + Cleaned(unintended) + Cleaned(tracked)
  }

  // ----- What a citation counts towards -----

  predicate Counts(c: Citation, analyses: Analyses, excluded: set<string>) {
    Clean(c.domain) != "" && !DomainMatchesAny(Clean(c.domain), excluded)
    && c.analysis in analyses && analyses[c.analysis].cohort in ORGANIC_PROMPT_COHORTS
  }

  predicate CountsFor(c: Citation, d: string, analyses: Analyses, excluded: set<string>) {
    Counts(c, analyses, excluded) && Clean(c.domain) == d
  }

  function CitedDomains(citations: seq<Citation>, analyses: Analyses, excluded: set<string>): set<string> {
    set c | c in citations && Counts(c, analyses, excluded) :: Clean(c.domain)
  }

  /** The distinct prompts that cite a domain. */
  function PromptsCiting(d: string, citations: seq<Citation>, analyses: Analyses, excluded: set<string>): set<int> {
    set c | c in citations && CountsFor(c, d, analyses, excluded) :: analyses[c.analysis].prompt
  }

  /** The distinct engines that cite a domain. */
  function EnginesCiting(d: string, citations: seq<Citation>, analyses: Analyses, excluded: set<string>): set<string> {
    set c | c in citations && CountsFor(c, d, analyses, excluded) :: analyses[c.analysis].engine
  }

  function AnalysesCiting(d: string, citations: seq<Citation>, analyses: Analyses, excluded: set<string>): set<string> {
    set c | c in citations && CountsFor(c, d, analyses, excluded) :: c.analysis
  }

  function ArtifactsCiting(d: string, citations: seq<Citation>, analyses: Analyses, excluded: set<string>): set<string> {
    set c | c in citations && CountsFor(c, d, analyses, excluded) && analyses[c.analysis].artifact.Some?
      :: analyses[c.analysis].artifact.value
  }

  // ----- Grouping -----

  /** A dict filled in order: the keys as first met, and the evidence of each. */
  datatype Grouped = Grouped(keys: seq<string>, evidence: map<string, Evidence>)

  /** The evidence of one domain is all that the citations say about it. */
  ghost predicate Faithful(e: Evidence, d: string, citations: seq<Citation>, analyses: Analyses, excluded: set<string>) {
    && e.prompts == PromptsCiting(d, citations, analyses, excluded)
    && e.engines == EnginesCiting(d, citations, analyses, excluded)
    && Ordering.Elements(e.analyses) == AnalysesCiting(d, citations, analyses, excluded)
    && Ordering.Elements(e.artifacts) == ArtifactsCiting(d, citations, analyses, excluded)
  }

  ghost predicate Groups(g: Grouped, citations: seq<Citation>, analyses: Analyses, excluded: set<string>) {
    && Ordering.NoDuplicates(g.keys)
    && (forall d :: d in g.keys <==> d in CitedDomains(citations, analyses, excluded))
    && g.evidence.Keys == CitedDomains(citations, analyses, excluded)
    && (forall d :: d in g.evidence ==> Faithful(g.evidence[d], d, citations, analyses, excluded))
  }

  function Noted(e: Evidence, c: Citation, analyses: Analyses): Evidence
    requires c.analysis in analyses
  {
    var a := analyses[c.analysis];
    Evidence(e.prompts + {a.prompt}, e.engines + {a.engine}, e.analyses + [c.analysis],
             if a.artifact.Some? then e.artifacts + [a.artifact.value] else e.artifacts)
  }

  /** A citation that counts for `d` adds itself to what is known, and any other adds nothing. */
  lemma OneMore(d: string, before: seq<Citation>, c: Citation, analyses: Analyses, excluded: set<string>)
    ensures var s := before + [c];
            var counts := CountsFor(c, d, analyses, excluded);
            && PromptsCiting(d, s, analyses, excluded)
               == PromptsCiting(d, before, analyses, excluded) + (if counts then {analyses[c.analysis].prompt} else {})
            && EnginesCiting(d, s, analyses, excluded)
               == EnginesCiting(d, before, analyses, excluded) + (if counts then {analyses[c.analysis].engine} else {})
            && AnalysesCiting(d, s, analyses, excluded)
               == AnalysesCiting(d, before, analyses, excluded) + (if counts then {c.analysis} else {})
  {
  }

  lemma OneMoreArtifact(d: string, before: seq<Citation>, c: Citation, analyses: Analyses, excluded: set<string>)
    ensures ArtifactsCiting(d, before + [c], analyses, excluded)
         == ArtifactsCiting(d, before, analyses, excluded)
          + (if CountsFor(c, d, analyses, excluded) && analyses[c.analysis].artifact.Some?
             then {analyses[c.analysis].artifact.value} else {})
  {
  }

  lemma OneMoreDomain(before: seq<Citation>, c: Citation, analyses: Analyses, excluded: set<string>)
    ensures CitedDomains(before + [c], analyses, excluded)
         == CitedDomains(before, analyses, excluded) + (if Counts(c, analyses, excluded) then {Clean(c.domain)} else {})
  {
  }

  lemma NotedIsFaithful(e: Evidence, before: seq<Citation>, c: Citation, analyses: Analyses, excluded: set<string>)
    requires Counts(c, analyses, excluded) && Faithful(e, Clean(c.domain), before, analyses, excluded)
    ensures Faithful(Noted(e, c, analyses), Clean(c.domain), before + [c], analyses, excluded)
  {
    hide PromptsCiting, EnginesCiting, AnalysesCiting, ArtifactsCiting, Counts, DomainMatchesAny;
    OneMore(Clean(c.domain), before, c, analyses, excluded);
    OneMoreArtifact(Clean(c.domain), before, c, analyses, excluded);
  }

  lemma OthersStayFaithful(e: Evidence, d: string, before: seq<Citation>, c: Citation, analyses: Analyses, excluded: set<string>)
    requires !CountsFor(c, d, analyses, excluded) && Faithful(e, d, before, analyses, excluded)
    ensures Faithful(e, d, before + [c], analyses, excluded)
  {
  }

  lemma NothingSaid(d: string, citations: seq<Citation>, analyses: Analyses, excluded: set<string>)
    requires d !in CitedDomains(citations, analyses, excluded)
    ensures Faithful(Evidence({}, {}, [], []), d, citations, analyses, excluded)
  {
    hide DomainMatchesAny, Clean;
  }

  lemma SkippedCitation(g: Grouped, before: seq<Citation>, c: Citation, analyses: Analyses, excluded: set<string>)
    requires Groups(g, before, analyses, excluded) && !Counts(c, analyses, excluded)
    ensures Groups(g, before + [c], analyses, excluded)
  {
    hide Faithful, CitedDomains, Counts;
    OneMoreDomain(before, c, analyses, excluded);
    forall d | d in g.evidence ensures Faithful(g.evidence[d], d, before + [c], analyses, excluded) {
      OthersStayFaithful(g.evidence[d], d, before, c, analyses, excluded);
    }
  }

  lemma CountedCitation(g: Grouped, before: seq<Citation>, c: Citation, analyses: Analyses, excluded: set<string>)
    requires Groups(g, before, analyses, excluded) && Counts(c, analyses, excluded)
    ensures var d := Clean(c.domain);
            var bucket := if d in g.evidence then g.evidence[d] else Evidence({}, {}, [], []);
            Groups(Grouped(if d in g.evidence then g.keys else g.keys + [d], g.evidence[d := Noted(bucket, c, analyses)]),
                   before + [c], analyses, excluded)
  {
    hide Faithful, CitedDomains, DomainMatchesAny, Clean, Noted;
    var d := Clean(c.domain);
    var bucket := if d in g.evidence then g.evidence[d] else Evidence({}, {}, [], []);
    OneMoreDomain(before, c, analyses, excluded);
    if d !in g.evidence { NothingSaid(d, before, analyses, excluded); }
    NotedIsFaithful(bucket, before, c, analyses, excluded);
    forall x | x in g.evidence && x != d ensures Faithful(g.evidence[x], x, before + [c], analyses, excluded) {
      OthersStayFaithful(g.evidence[x], x, before, c, analyses, excluded);
    }
  }

  method GroupCitations(citations: seq<Citation>, analyses: Analyses, excluded: set<string>) returns (g: Grouped)
    ensures Groups(g, citations, analyses, excluded)
  {
    hide Groups, Counts, Noted;
    g := Grouped([], map[]);
    assert Groups(g, [], analyses, excluded) by { NoneGrouped(analyses, excluded); }
    assert citations[..0] == [];
    for i := 0 to |citations|
      invariant Groups(g, citations[..i], analyses, excluded)
    {
      var c := citations[i];
      assert citations[..i + 1] == citations[..i] + [c];
      var domain := Clean(c.domain);
      if domain == "" || DomainMatchesAny(domain, excluded) || c.analysis !in analyses
         || analyses[c.analysis].cohort !in ORGANIC_PROMPT_COHORTS
      {
        CountsExactly(c, analyses, excluded);
        SkippedCitation(g, citations[..i], c, analyses, excluded);
        continue;
      }
      CountsExactly(c, analyses, excluded);
      CountedCitation(g, citations[..i], c, analyses, excluded);
      var bucket := if domain in g.evidence then g.evidence[domain] else Evidence({}, {}, [], []);
      g := Grouped(if domain in g.evidence then g.keys else g.keys + [domain],
                   g.evidence[domain := Noted(bucket, c, analyses)]);
    }
    assert citations[..|citations|] == citations;
  }

  lemma CountsExactly(c: Citation, analyses: Analyses, excluded: set<string>)
    ensures Counts(c, analyses, excluded)
       <==> !(Clean(c.domain) == "" || DomainMatchesAny(Clean(c.domain), excluded) || c.analysis !in analyses
              || analyses[c.analysis].cohort !in ORGANIC_PROMPT_COHORTS)
  {
  }

  lemma NoneGrouped(analyses: Analyses, excluded: set<string>)
    ensures Groups(Grouped([], map[]), [], analyses, excluded)
  {
  }

  // ----- Ranking -----

  /** How widely a domain is cited. */
  datatype Standing = Standing(prompts: nat, engines: nat)

  type Standings = map<string, Standing>

  function StandingOf(m: Standings, d: string): Standing { if d in m then m[d] else Standing(0, 0) }

  /** More prompts first, then more engines, then by name. */
  function RanksBefore(m: Standings): (string, string) -> bool {
    (a: string, b: string) =>
      var (x, y) := (StandingOf(m, a), StandingOf(m, b));
      x.prompts > y.prompts
      || (x.prompts == y.prompts && (x.engines > y.engines || (x.engines == y.engines && Ordering.StringLe(a, b))))
  }

  function Qualifies(m: Standings): string -> bool {
    (d: string) => StandingOf(m, d).prompts >= MIN_DISTINCT_PROMPTS && StandingOf(m, d).engines >= MIN_DISTINCT_ENGINES
  }

  lemma RanksAreTotal(m: Standings)
    ensures Ordering.TotalPreorder(RanksBefore(m))
    ensures forall s: seq<string> :: Ordering.TieFree(RanksBefore(m), s)
  {
    Ordering.StringLeOrder();
    forall x, y | Ordering.StringLe(x, y) && Ordering.StringLe(y, x) ensures x == y { Ordering.StringLeAntisymmetric(x, y); }
  }

  /** The dict's domains that meet both thresholds, ranked. */
  function QualifiedDomains(keys: seq<string>, m: Standings): seq<string> {
    Ordering.Sort(RanksBefore(m), Counting.Filter(Qualifies(m), keys))
  }

  /** Each domain's true counts. */
  function TrueStandings(citations: seq<Citation>, analyses: Analyses, excluded: set<string>): Standings {
    map d | d in CitedDomains(citations, analyses, excluded)
      :: Standing(|PromptsCiting(d, citations, analyses, excluded)|, |EnginesCiting(d, citations, analyses, excluded)|)
  }

  function CandidateOf(d: string, citations: seq<Citation>, analyses: Analyses, excluded: set<string>): Candidate {
    Candidate(d, |PromptsCiting(d, citations, analyses, excluded)|, |EnginesCiting(d, citations, analyses, excluded)|,
              Ordering.SortedStrings(AnalysesCiting(d, citations, analyses, excluded)),
              Ordering.SortedStrings(ArtifactsCiting(d, citations, analyses, excluded)))
  }

  function Truncate(s: seq<string>): seq<string> {
    if |s| <= MAX_CANDIDATES_PER_AUDIT then s else s[..MAX_CANDIDATES_PER_AUDIT]
  }

  /** The domains kept: a function of which citations there are, not of their order. */
  function Kept(citations: seq<Citation>, analyses: Analyses, excluded: set<string>): seq<string> {
    Truncate(QualifiedDomains(Ordering.SortedStrings(CitedDomains(citations, analyses, excluded)),
                              TrueStandings(citations, analyses, excluded)))
  }

  /** The order in which domains were first met does not matter to the ranking. */
  lemma RankingIgnoresKeyOrder(a: seq<string>, b: seq<string>, m: Standings)
    requires Ordering.NoDuplicates(a) && Ordering.NoDuplicates(b) && forall d :: d in a <==> d in b
    ensures QualifiedDomains(a, m) == QualifiedDomains(b, m)
  {
    Ordering.SameSetSameMultiset(a, b);
    Counting.FilterPermuted(Qualifies(m), a, b);
    RanksAreTotal(m);
    Ordering.SortOrderIndependent(RanksBefore(m), Counting.Filter(Qualifies(m), a), Counting.Filter(Qualifies(m), b));
  }

  function StandingsIn(g: Grouped): Standings {
    map d | d in g.evidence :: Standing(|g.evidence[d].prompts|, |g.evidence[d].engines|)
  }

  lemma GroupedStandings(g: Grouped, citations: seq<Citation>, analyses: Analyses, excluded: set<string>)
    requires Groups(g, citations, analyses, excluded)
    ensures StandingsIn(g) == TrueStandings(citations, analyses, excluded)
  {
    hide CitedDomains, PromptsCiting, EnginesCiting, AnalysesCiting, ArtifactsCiting;
  }

  lemma GroupedRanking(g: Grouped, citations: seq<Citation>, analyses: Analyses, excluded: set<string>)
    requires Groups(g, citations, analyses, excluded)
    ensures Truncate(QualifiedDomains(g.keys, StandingsIn(g))) == Kept(citations, analyses, excluded)
  {
    hide CitedDomains, QualifiedDomains, TrueStandings, StandingsIn, Faithful, Truncate;
    GroupedStandings(g, citations, analyses, excluded);
    var sorted := Ordering.SortedStrings(CitedDomains(citations, analyses, excluded));
    Ordering.SortedStringsDistinct(CitedDomains(citations, analyses, excluded));
    RankingIgnoresKeyOrder(g.keys, sorted, StandingsIn(g));
  }

  // ----- What is kept -----

  predicate Qualifying(d: string, citations: seq<Citation>, analyses: Analyses, excluded: set<string>) {
    d in CitedDomains(citations, analyses, excluded)
    && |PromptsCiting(d, citations, analyses, excluded)| >= MIN_DISTINCT_PROMPTS
    && |EnginesCiting(d, citations, analyses, excluded)| >= MIN_DISTINCT_ENGINES
  }

  /** `a` is cited by more prompts, or as many and more engines, or as many of both and comes first by name. */
  predicate Outranks(a: string, b: string, citations: seq<Citation>, analyses: Analyses, excluded: set<string>) {
    var pa, pb := |PromptsCiting(a, citations, analyses, excluded)|, |PromptsCiting(b, citations, analyses, excluded)|;
    var ea, eb := |EnginesCiting(a, citations, analyses, excluded)|, |EnginesCiting(b, citations, analyses, excluded)|;
    pa > pb || (pa == pb && (ea > eb || (ea == eb && Ordering.StringLe(a, b) && a != b)))
  }

  lemma QualifiedSpec(keys: seq<string>, m: Standings)
    requires Ordering.NoDuplicates(keys) && forall d :: d in keys <==> d in m
    ensures var q := QualifiedDomains(keys, m);
            && Ordering.Sorted(RanksBefore(m), q) && Ordering.NoDuplicates(q)
            && forall d :: d in q <==> d in m && m[d].prompts >= MIN_DISTINCT_PROMPTS && m[d].engines >= MIN_DISTINCT_ENGINES
  {
    var p := Qualifies(m);
    var f := Counting.Filter(p, keys);
    RanksAreTotal(m);
    Ordering.SortSorts(RanksBefore(m), f);
    Ordering.SameElements(f, QualifiedDomains(keys, m));
    Counting.FilterHolds(p, keys);
    forall x ensures multiset(QualifiedDomains(keys, m))[x] <= 1 {
      Counting.FilterMultiplicity(p, keys, x);
      Ordering.NoDuplicatesCounts(keys, x);
    }
    AtMostOnce(QualifiedDomains(keys, m));
  }

  lemma AtMostOnce(s: seq<string>)
    requires forall x :: multiset(s)[x] <= 1
    ensures Ordering.NoDuplicates(s)
  {
    forall i, j | 0 <= i < j < |s| ensures s[i] != s[j] {
      assert s == s[..j] + [s[j]] + s[j + 1..];
      assert s[..j][i] in multiset(s[..j]);
      assert multiset(s)[s[i]] == multiset(s[..j])[s[i]] + multiset{s[j]}[s[i]] + multiset(s[j + 1..])[s[i]];
    }
  }

  lemma RankIsOutranking(a: string, b: string, citations: seq<Citation>, analyses: Analyses, excluded: set<string>)
    requires a in CitedDomains(citations, analyses, excluded) && b in CitedDomains(citations, analyses, excluded) && a != b
    ensures RanksBefore(TrueStandings(citations, analyses, excluded))(a, b) <==> Outranks(a, b, citations, analyses, excluded)
  {
    hide CitedDomains, PromptsCiting, EnginesCiting;
  }

  /** Everything that qualifies, in rank order. */
  lemma AllRanked(citations: seq<Citation>, analyses: Analyses, excluded: set<string>)
    ensures var q := QualifiedDomains(Ordering.SortedStrings(CitedDomains(citations, analyses, excluded)),
                                      TrueStandings(citations, analyses, excluded));
            && (forall i, j :: 0 <= i < j < |q| ==> Outranks(q[i], q[j], citations, analyses, excluded))
            && (forall d :: d in q <==> Qualifying(d, citations, analyses, excluded))
  {
    hide CitedDomains, PromptsCiting, EnginesCiting, QualifiedDomains, RanksBefore, Outranks;
    var m := TrueStandings(citations, analyses, excluded);
    var cited := CitedDomains(citations, analyses, excluded);
    Ordering.SortedStringsDistinct(cited);
    QualifiedSpec(Ordering.SortedStrings(cited), m);
    var q := QualifiedDomains(Ordering.SortedStrings(cited), m);
    forall i, j | 0 <= i < j < |q| ensures Outranks(q[i], q[j], citations, analyses, excluded) {
      assert q[i] in q && q[j] in q;
      RankIsOutranking(q[i], q[j], citations, analyses, excluded);
    }
  }

  /** The kept list is strictly ranked by true distinct counts, holds only qualifying domains, is cut at the
      maximum, and nothing that qualifies but was cut ranks above anything kept. */
  lemma KeptSpec(citations: seq<Citation>, analyses: Analyses, excluded: set<string>)
    ensures var kept := Kept(citations, analyses, excluded);
            && |kept| <= MAX_CANDIDATES_PER_AUDIT
            && (forall i, j :: 0 <= i < j < |kept| ==> Outranks(kept[i], kept[j], citations, analyses, excluded))
            && (forall d :: d in kept ==> Qualifying(d, citations, analyses, excluded))
            && (forall d :: Qualifying(d, citations, analyses, excluded) && d !in kept ==> |kept| == MAX_CANDIDATES_PER_AUDIT)
            && (forall d, k :: k in kept && Qualifying(d, citations, analyses, excluded) && d !in kept ==>
                  Outranks(k, d, citations, analyses, excluded))
  {
    hide CitedDomains, PromptsCiting, EnginesCiting, QualifiedDomains, Outranks, Qualifying, TrueStandings;
    AllRanked(citations, analyses, excluded);
    var q := QualifiedDomains(Ordering.SortedStrings(CitedDomains(citations, analyses, excluded)),
                              TrueStandings(citations, analyses, excluded));
    var kept := Kept(citations, analyses, excluded);
    assert kept <= q;
    forall d, k | k in kept && Qualifying(d, citations, analyses, excluded) && d !in kept
      ensures Outranks(k, d, citations, analyses, excluded) {
      var i :| 0 <= i < |kept| && kept[i] == k;
      var j :| 0 <= j < |q| && q[j] == d;
      assert i < j;
    }
  }

  /** No suggestion is an excluded domain or a subdomain of one. */
  lemma NothingExcludedIsKept(citations: seq<Citation>, analyses: Analyses, excluded: set<string>, d: string, item: string)
    requires d in Kept(citations, analyses, excluded) && item in excluded
    ensures d != item && !EndsWith(d, "." + item)
  {
    KeptSpec(citations, analyses, excluded);
    var c :| c in citations && Counts(c, analyses, excluded) && Clean(c.domain) == d;
    assert !DomainMatches(d, item);
  }

  /** The suggestions do not depend on the order the citations arrive in, nor on repeats. */
  lemma KeptOrderIndependent(a: seq<Citation>, b: seq<Citation>, analyses: Analyses, excluded: set<string>)
    requires forall c :: c in a <==> c in b
    ensures Kept(a, analyses, excluded) == Kept(b, analyses, excluded)
    ensures forall d :: CandidateOf(d, a, analyses, excluded) == CandidateOf(d, b, analyses, excluded)
  {
    hide CountsFor, Counts, QualifiedDomains;
    assert CitedDomains(a, analyses, excluded) == CitedDomains(b, analyses, excluded);
    forall d ensures PromptsCiting(d, a, analyses, excluded) == PromptsCiting(d, b, analyses, excluded)
                  && EnginesCiting(d, a, analyses, excluded) == EnginesCiting(d, b, analyses, excluded)
                  && AnalysesCiting(d, a, analyses, excluded) == AnalysesCiting(d, b, analyses, excluded)
                  && ArtifactsCiting(d, a, analyses, excluded) == ArtifactsCiting(d, b, analyses, excluded) {
    }
    assert TrueStandings(a, analyses, excluded) == TrueStandings(b, analyses, excluded);
  }

  /** The audit's suggestions, with true distinct counts and sorted, distinct provenance. */
  method PersistObservedCompetitors(citations: seq<Citation>, analyses: Analyses, owned: seq<string>,
                                    unintended: seq<string>, tracked: seq<string>)
    returns (candidates: seq<Candidate>)
    ensures var excluded := Excluded(owned, unintended, tracked);
            var kept := Kept(citations, analyses, excluded);
            |candidates| == |kept|
            && forall i :: 0 <= i < |kept| ==> candidates[i] == CandidateOf(kept[i], citations, analyses, excluded)
  {
    hide Groups, Faithful, QualifiedDomains, CandidateOf, CitedDomains, Kept, Excluded, StandingsIn, Truncate, Ordering.SortedStrings,
      Ordering.Elements;
    var excluded := Excluded(owned, unintended, tracked);
    var g := GroupCitations(citations, analyses, excluded);
    var kept := Truncate(QualifiedDomains(g.keys, StandingsIn(g)));
    GroupedRanking(g, citations, analyses, excluded);
    candidates := [];
    for i := 0 to |kept|
      invariant |candidates| == i
      invariant forall k :: 0 <= k < i ==> candidates[k] == CandidateOf(kept[k], citations, analyses, excluded)
    {
      KeptHasEvidence(g, kept[i], citations, analyses, excluded);
      var e := g.evidence[kept[i]];
      candidates := candidates + [Candidate(kept[i], |e.prompts|, |e.engines|,
                                            Ordering.SortedStrings(Ordering.Elements(e.analyses)),
                                            Ordering.SortedStrings(Ordering.Elements(e.artifacts)))];
    }
  }

  lemma KeptHasEvidence(g: Grouped, d: string, citations: seq<Citation>, analyses: Analyses, excluded: set<string>)
    requires Groups(g, citations, analyses, excluded) && d in Kept(citations, analyses, excluded)
    ensures d in g.evidence
    ensures var e := g.evidence[d];
            Candidate(d, |e.prompts|, |e.engines|, Ordering.SortedStrings(Ordering.Elements(e.analyses)),
                      Ordering.SortedStrings(Ordering.Elements(e.artifacts)))
            == CandidateOf(d, citations, analyses, excluded)
  {
    hide CitedDomains, PromptsCiting, EnginesCiting, AnalysesCiting, ArtifactsCiting, Kept;
    KeptSpec(citations, analyses, excluded);
  }

  // ----- What is read and what is left out -----

  /** Domains are compared in lower case and without one leading `www.`. */
  lemma CleanIs(domain: string)
    ensures Clean("www." + domain) == Normalization.Casefold(domain)
    ensures !("www." <= Normalization.Casefold(domain)) ==> Clean(domain) == Normalization.Casefold(domain)
    ensures "www." <= Normalization.Casefold(domain) ==> Normalization.Casefold(domain) == "www." + Clean(domain)
  {
    var low := Normalization.Casefold("www." + domain);
    assert low[..4] == "www.";
    assert low[4..] == Normalization.Casefold(domain);
  }

  /** A citation counts exactly when it has a domain that is neither an excluded one nor below one, and comes from a
      known analysis of a core prompt. */
  lemma CountsIff(c: Citation, analyses: Analyses, excluded: set<string>)
    ensures Counts(c, analyses, excluded) <==>
              && Clean(c.domain) != ""
              && (forall item :: item in excluded ==> Clean(c.domain) != item && !EndsWith(Clean(c.domain), "." + item))
              && c.analysis in analyses && analyses[c.analysis].cohort == "core"
  {
    hide Clean, EndsWith;
    var d := Clean(c.domain);
    if DomainMatchesAny(d, excluded) {
      var item :| item in excluded && DomainMatches(d, item);
    } else {
      forall item | item in excluded ensures d != item && !EndsWith(d, "." + item) { assert !DomainMatches(d, item); }
    }
  }

  /** A suggestion is cited by at least two distinct core prompts and two distinct engines, there are at most twenty,
      and none is a research site, or the audited brand's own, unintended or tracked domain, or below one. */
  lemma SuggestionsAre(citations: seq<Citation>, analyses: Analyses, owned: seq<string>, unintended: seq<string>,
                       tracked: seq<string>, d: string)
    requires d in Kept(citations, analyses, Excluded(owned, unintended, tracked))
    ensures |Kept(citations, analyses, Excluded(owned, unintended, tracked))| <= 20
    ensures |set c | c in citations && c.analysis in analyses && analyses[c.analysis].cohort == "core" && Clean(c.domain) == d
              :: analyses[c.analysis].prompt| >= 2
    ensures |set c | c in citations && c.analysis in analyses && analyses[c.analysis].cohort == "core" && Clean(c.domain) == d
              :: analyses[c.analysis].engine| >= 2
    ensures var research := ["wikipedia.org", "youtube.com", "reddit.com", "linkedin.com", "facebook.com", "instagram.com",
                             "x.com"];
            forall item :: item in research ==> d != item && !EndsWith(d, "." + item)
    ensures forall x :: x in owned || x in unintended || x in tracked ==> d != Clean(x) && !EndsWith(d, "." + Clean(x))
  {
    hide Clean, EndsWith, Kept;
    var excluded := Excluded(owned, unintended, tracked);
    KeptSpec(citations, analyses, excluded);
    forall item | item in excluded ensures d != item && !EndsWith(d, "." + item) {
      NothingExcludedIsKept(citations, analyses, excluded, d, item);
    }
    forall x | x in owned || x in unintended || x in tracked ensures Clean(x) in excluded { }
    CountedAre(citations, analyses, excluded, d);
  }

  lemma CountedAre(citations: seq<Citation>, analyses: Analyses, excluded: set<string>, d: string)
    requires d in CitedDomains(citations, analyses, excluded)
    ensures PromptsCiting(d, citations, analyses, excluded)
         == set c | c in citations && c.analysis in analyses && analyses[c.analysis].cohort == "core" && Clean(c.domain) == d
                  :: analyses[c.analysis].prompt
    ensures EnginesCiting(d, citations, analyses, excluded)
         == set c | c in citations && c.analysis in analyses && analyses[c.analysis].cohort == "core" && Clean(c.domain) == d
                  :: analyses[c.analysis].engine
  {
    hide Clean, DomainMatchesAny;
    var known :| known in citations && Counts(known, analyses, excluded) && Clean(known.domain) == d;
    forall c | c in citations
      ensures CountsFor(c, d, analyses, excluded)
         <==> c.analysis in analyses && analyses[c.analysis].cohort == "core" && Clean(c.domain) == d { }
  }
}
