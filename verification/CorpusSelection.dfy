/** Selecting the 50-URL audit corpus: twelve rows per company from two alternating score streams, then two more. */
module CorpusSelection {
  import opened Options
  import Ordering
  import Counting

  datatype Row = Row(id: string, company: string, url: string, pageKind: string, web: Option<real>, aeo: Option<real>)

  datatype Stream = WebScore | AeoScore

  datatype Reason = Alternating(company: string, stream: Stream) | LowestRemaining(stream: Stream)

  /** A selected row, annotated with why. */
  datatype Pick = Pick(row: Row, reason: Reason)

  const COMPANIES := ["goodee", "lootcrate", "potgang", "united by blue"]

  // ----- Ranking -----

  function Score(row: Row, stream: Stream): real {
    var value := match stream case WebScore => row.web case AeoScore => row.aeo;
    if value.Some? then value.value else 101.0
  }

  /** The sort key `(score, page_kind, url)`. */
  predicate RankLe(stream: Stream, a: Row, b: Row) {
    || Score(a, stream) < Score(b, stream)
    || (&& Score(a, stream) == Score(b, stream)
        && if a.pageKind == b.pageKind then Ordering.StringLe(a.url, b.url)
           else Ordering.StringLe(a.pageKind, b.pageKind))
  }

  function Rank(stream: Stream): (Row, Row) -> bool {
    (a: Row, b: Row) => RankLe(stream, a, b)
  }

  lemma RankIsOrder(stream: Stream)
    ensures Ordering.TotalPreorder(Rank(stream))
  {
    forall a, b ensures RankLe(stream, a, b) || RankLe(stream, b, a) {
      Ordering.StringLeTotal(a.url, b.url);
      Ordering.StringLeTotal(a.pageKind, b.pageKind);
    }
    forall a, b, c | RankLe(stream, a, b) && RankLe(stream, b, c) ensures RankLe(stream, a, c) {
      RankTransitive(stream, a, b, c);
    }
  }

  lemma RankTransitive(stream: Stream, a: Row, b: Row, c: Row)
    requires RankLe(stream, a, b) && RankLe(stream, b, c)
    ensures RankLe(stream, a, c)
  {
    if Score(a, stream) == Score(b, stream) == Score(c, stream) {
      if a.pageKind == b.pageKind == c.pageKind {
        Ordering.StringLeTransitive(a.url, b.url, c.url);
      } else if a.pageKind != b.pageKind && b.pageKind != c.pageKind {
        Ordering.StringLeTransitive(a.pageKind, b.pageKind, c.pageKind);
        if a.pageKind == c.pageKind { Ordering.StringLeAntisymmetric(a.pageKind, b.pageKind); }
      }
    }
  }

  /** Rows that tie in rank have the same score, kind and URL. */
  lemma RankTies(stream: Stream, a: Row, b: Row)
    requires RankLe(stream, a, b) && RankLe(stream, b, a)
    ensures Score(a, stream) == Score(b, stream) && a.pageKind == b.pageKind && a.url == b.url
  {
    if a.pageKind == b.pageKind {
      Ordering.StringLeAntisymmetric(a.url, b.url);
    } else {
      Ordering.StringLeAntisymmetric(a.pageKind, b.pageKind);
    }
  }

  function Urls(rows: seq<Row>): set<string> {
    set row | row in rows :: row.url
  }

  function Kinds(rows: seq<Row>): set<string> {
    set row | row in rows :: row.pageKind
  }

  function Rows(picks: seq<Pick>): seq<Row> {
    seq(|picks|, i requires 0 <= i < |picks| => picks[i].row)
  }

  function Unseen(seen: set<string>): Row -> bool {
    (row: Row) => row.url !in seen
  }

  function UnselectedByScore(rows: seq<Row>, seen: set<string>, stream: Stream): (r: seq<Row>)
    ensures forall row :: row in r <==> row in rows && row.url !in seen
  {
    var rest := Counting.Filter(Unseen(seen), rows);
    Counting.FilterHolds(Unseen(seen), rows);
    Ordering.SameElements(Ordering.Sort(Rank(stream), rest), rest);
    Ordering.Sort(Rank(stream), rest)
  }

  /** The first row of a kind not seen yet, if there is one. */
  function FirstNovel(candidates: seq<Row>, kinds: set<string>): (r: Option<Row>)
    ensures r.Some? ==> r.value in candidates && r.value.pageKind !in kinds
    ensures r.None? ==> forall row :: row in candidates ==> row.pageKind in kinds
  {
    if candidates == [] then None
    else if candidates[0].pageKind !in kinds then Some(candidates[0])
    else FirstNovel(candidates[1..], kinds)
  }

  function PreferNovelKind(candidates: seq<Row>, kinds: set<string>): (row: Row)
    requires candidates != []
    ensures row in candidates
  {
    var novel := FirstNovel(candidates, kinds);
    if novel.Some? then novel.value else candidates[0]
  }

  function StreamAt(i: nat): Stream { if i % 2 == 0 then WebScore else AeoScore }

  // ----- One company -----

  /** The next pick after `chosen`, if any row is left. */
  function NextPick(pool: seq<Row>, chosen: seq<Row>): Option<Row> {
    var candidates := UnselectedByScore(pool, Urls(chosen), StreamAt(|chosen|));
    if candidates == [] then None
    else Some(if |chosen| < 8 then PreferNovelKind(candidates, Kinds(chosen)) else candidates[0])
  }

  /** Picking up to `n` rows. */
  function Picked(pool: seq<Row>, n: nat): seq<Row> {
    if n == 0 then []
    else
      var before := Picked(pool, n - 1);
      match NextPick(pool, before) case None => before case Some(row) => before + [row]
  }

  function Min(a: nat, b: nat): nat { if a < b then a else b }

  predicate InCompany(company: string, row: Row) { row.company == company }

  function Pool(rows: seq<Row>, company: string): seq<Row> {
    Counting.Filter((row: Row) => InCompany(company, row), rows)
  }

  lemma NextPickSpec(pool: seq<Row>, chosen: seq<Row>)
    requires Urls(chosen) <= Urls(pool)
    ensures var next := NextPick(pool, chosen);
            && (next.None? <==> Urls(chosen) == Urls(pool))
            && (next.Some? ==> next.value in pool && next.value.url !in Urls(chosen))
  {
  }

  lemma UrlsAppend(a: seq<Row>, row: Row)
    ensures Urls(a + [row]) == Urls(a) + {row.url}
    ensures Kinds(a + [row]) == Kinds(a) + {row.pageKind}
  {
  }

  ghost predicate PickedOk(pool: seq<Row>, picked: seq<Row>, n: nat) {
    && (forall row :: row in picked ==> row in pool)
    && |picked| == |Urls(picked)| == Min(n, |Urls(pool)|)
    && Urls(picked) <= Urls(pool)
    && (|picked| < n ==> Urls(picked) == Urls(pool))
  }

  lemma PickedStep(pool: seq<Row>, before: seq<Row>, n: nat)
    requires PickedOk(pool, before, n)
    ensures PickedOk(pool, match NextPick(pool, before) case None => before case Some(row) => before + [row], n + 1)
  {
    NextPickSpec(pool, before);
    hide NextPick, Urls, Kinds;
    match NextPick(pool, before)
    case None =>
    case Some(row) =>
      UrlIn(pool, row);
      PickedMore(pool, before, row, n);
  }

  lemma PickedMore(pool: seq<Row>, before: seq<Row>, row: Row, n: nat)
    requires PickedOk(pool, before, n)
    requires row in pool && row.url !in Urls(before) && row.url in Urls(pool)
    ensures PickedOk(pool, before + [row], n + 1)
  {
    hide Urls, Kinds;
    UrlsAppend(before, row);
    var after := before + [row];
    assert Urls(after) <= Urls(pool);
    assert Urls(before) != Urls(pool);
    assert |Urls(after)| == |Urls(before)| + 1;
    Ordering.SubsetCardinality(Urls(after), Urls(pool));
  }

  lemma UrlIn(pool: seq<Row>, row: Row)
    requires row in pool
    ensures row.url in Urls(pool)
  {
  }

  lemma PickedNone(pool: seq<Row>)
    ensures PickedOk(pool, [], 0)
  {
  }

  /** The picks have distinct URLs, all from the pool, and there are as many as asked for or as the pool
      has distinct URLs. */
  lemma {:induction false} PickedSpec(pool: seq<Row>, n: nat)
    ensures PickedOk(pool, Picked(pool, n), n)
  {
    hide PickedOk, NextPick;
    if n == 0 {
      PickedNone(pool);
    } else {
      PickedSpec(pool, n - 1);
      PickedStep(pool, Picked(pool, n - 1), n - 1);
    }
  }

  /** One pass of the loop body: rank what is left by the current stream and choose. */
  method ChooseCandidate(pool: seq<Row>, seen: set<string>, stream: Stream, chosen: seq<Row>) returns (r: Option<Row>)
    requires seen == Urls(chosen) && stream == StreamAt(|chosen|)
    ensures r == NextPick(pool, chosen)
  {
    var candidates := UnselectedByScore(pool, seen, stream);
    if candidates == [] { return None; }
    r := Some(if |chosen| < 8 then PreferNovelKind(candidates, Kinds(chosen)) else candidates[0]);
  }

  /** The selection loop of one company. Its stream guard is implied by its length guard: it is never what
      stops the loop, so exactly twelve rows are chosen, or all the distinct URLs when there are fewer. */
  method SelectCompanyRows(rows: seq<Row>, company: string) returns (chosen: seq<Pick>)
    ensures var pool := Pool(rows, company);
            && Rows(chosen) == Picked(pool, 12)
            && |chosen| == |Urls(Rows(chosen))| == Min(12, |Urls(pool)|)
            && (forall i :: 0 <= i < |chosen| ==>
                 chosen[i].reason == Alternating(company, if i % 2 == 0 then WebScore else AeoScore))
  {
    hide NextPick, Urls, Kinds;
    var pool := Pool(rows, company);
    chosen := [];
    var seen: set<string> := {};
    var streamIndex := 0;
    NoUrls();
    assert Rows(chosen) == [];
    while |chosen| < Min(12, |pool|) && streamIndex < |pool| * 4
      invariant streamIndex == |chosen| <= Min(12, |pool|)
      invariant seen == Urls(Rows(chosen))
      invariant Rows(chosen) == Picked(pool, |chosen|)
      invariant forall i :: 0 <= i < |chosen| ==> chosen[i].reason == Alternating(company, StreamAt(i))
      decreases 12 - |chosen|
    {
      var stream := if streamIndex % 2 == 0 then WebScore else AeoScore;
      var candidate := ChooseCandidate(pool, seen, stream, Rows(chosen));
      if candidate.None? {
        NothingLeft(pool, |chosen|);
        return;
      }
      UrlsAppend(Rows(chosen), candidate.value);
      var pick := Pick(candidate.value, Alternating(company, stream));
      assert Rows(chosen + [pick]) == Rows(chosen) + [candidate.value];
      chosen := chosen + [pick];
      seen := seen + {candidate.value.url};
      streamIndex := streamIndex + 1;
    }
    assert |chosen| == Min(12, |pool|);
    FullPool(pool, |chosen|);
  }

  lemma NoUrls()
    ensures Urls([]) == {} && Kinds([]) == {}
  {
  }

  /** Once nothing is left to pick, asking for more changes nothing. */
  lemma {:induction false} PickedStops(pool: seq<Row>, n: nat, m: nat)
    requires n <= m && NextPick(pool, Picked(pool, n)).None?
    ensures Picked(pool, m) == Picked(pool, n)
    decreases m
  {
    if n < m { PickedStops(pool, n, m - 1); }
  }

  lemma NothingLeft(pool: seq<Row>, n: nat)
    requires n <= 12 && NextPick(pool, Picked(pool, n)).None?
    ensures Picked(pool, 12) == Picked(pool, n)
    ensures |Picked(pool, 12)| == |Urls(Picked(pool, 12))| == Min(12, |Urls(pool)|)
  {
    PickedStops(pool, n, 12);
    PickedSpec(pool, 12);
  }

  lemma UrlsAtMost(rows: seq<Row>)
    ensures |Urls(rows)| <= |rows|
  {
    if rows == [] {
    } else {
      UrlsAtMost(rows[..|rows| - 1]);
      UrlsAppend(rows[..|rows| - 1], rows[|rows| - 1]);
      assert rows[..|rows| - 1] + [rows[|rows| - 1]] == rows;
    }
  }

  /** When as many rows are picked as the pool has, nothing is left either. */
  lemma FullPool(pool: seq<Row>, n: nat)
    requires n == Min(12, |pool|) && |Picked(pool, n)| == n
    ensures Picked(pool, 12) == Picked(pool, n)
    ensures |Picked(pool, 12)| == |Urls(Picked(pool, 12))| == Min(12, |Urls(pool)|)
  {
    PickedSpec(pool, n);
    PickedSpec(pool, 12);
    if n < 12 {
      UrlsAtMost(pool);
      Ordering.SubsetCardinality(Urls(Picked(pool, n)), Urls(pool));
      NextPickSpec(pool, Picked(pool, n));
      PickedStops(pool, n, 12);
    }
  }

  // ----- Page-kind coverage -----

  ghost predicate UniqueUrls(rows: seq<Row>) {
    forall a, b :: a in rows && b in rows && a.url == b.url ==> a == b
  }

  /** While fewer than eight rows are chosen and some kind is missing, the next pick brings a new kind. */
  lemma NextPickIsNovel(pool: seq<Row>, chosen: seq<Row>)
    requires UniqueUrls(pool) && (forall row :: row in chosen ==> row in pool)
    requires |chosen| < 8 && Kinds(chosen) != Kinds(pool)
    ensures NextPick(pool, chosen).Some? && NextPick(pool, chosen).value in pool
    ensures NextPick(pool, chosen).value.pageKind !in Kinds(chosen)
  {
  }

  lemma {:induction false} KindsCovered(pool: seq<Row>, n: nat)
    requires UniqueUrls(pool) && n <= 8
    ensures |Kinds(Picked(pool, n))| == Min(n, |Kinds(pool)|)
    ensures Kinds(Picked(pool, n)) <= Kinds(pool)
  {
    hide NextPick, Kinds;
    PickedSpec(pool, n);
    KindsInside(Picked(pool, n), pool);
    if n == 0 {
      NoUrls();
    } else {
      var before := Picked(pool, n - 1);
      KindsCovered(pool, n - 1);
      PickedSpec(pool, n - 1);
      PickedExtends(pool, n);
      if Kinds(before) == Kinds(pool) {
        KindsGrow(before, Picked(pool, n));
        assert Kinds(Picked(pool, n)) == Kinds(pool);
      } else {
        NextPickIsNovel(pool, before);
        var row := NextPick(pool, before).value;
        UrlsAppend(before, row);
        Ordering.SubsetCardinality(Kinds(before), Kinds(pool));
      }
    }
  }

  lemma PickedExtends(pool: seq<Row>, n: nat)
    requires n > 0
    ensures Picked(pool, n - 1) <= Picked(pool, n)
  {
    hide NextPick;
  }

  lemma KindsInside(rows: seq<Row>, pool: seq<Row>)
    requires forall row :: row in rows ==> row in pool
    ensures Kinds(rows) <= Kinds(pool)
  {
  }

  lemma KindsGrow(before: seq<Row>, after: seq<Row>)
    requires before <= after
    ensures Kinds(before) <= Kinds(after)
  {
  }

  lemma KindsAtMost(rows: seq<Row>)
    ensures |Kinds(rows)| <= |rows|
  {
    if rows != [] {
      KindsAtMost(rows[..|rows| - 1]);
      UrlsAppend(rows[..|rows| - 1], rows[|rows| - 1]);
      assert rows[..|rows| - 1] + [rows[|rows| - 1]] == rows;
    }
  }

  /** Picking more only adds at the end. */
  lemma {:induction false} PickedGrows(pool: seq<Row>, n: nat, m: nat)
    requires n <= m
    ensures Picked(pool, n) <= Picked(pool, m)
    decreases m
  {
    hide Picked;
    if n < m {
      PickedGrows(pool, n, m - 1);
      PickedExtends(pool, m);
    }
  }

  /** With unique URLs, the first eight of the twelve picks cover at least as many page kinds as any eight rows
      of the company could. */
  lemma FirstEightCoverMostKinds(pool: seq<Row>, others: seq<Row>)
    requires UniqueUrls(pool) && |others| <= 8 && forall row :: row in others ==> row in pool
    ensures Picked(pool, 8) <= Picked(pool, 12)
    ensures |Kinds(others)| <= |Kinds(Picked(pool, 8))|
  {
    PickedGrows(pool, 8, 12);
    KindsCovered(pool, 8);
    KindsAtMost(others);
    KindsInside(others, pool);
    Ordering.SubsetCardinality(Kinds(others), Kinds(pool));
  }

  // ----- Independence of the input order -----

  /** No two different rows tie in either stream. */
  ghost predicate NoTies(rows: seq<Row>) {
    forall stream :: Ordering.TieFree(Rank(stream), rows)
  }

  /** Rows with different URLs never tie. */
  lemma UniqueUrlsNeverTie(rows: seq<Row>)
    requires UniqueUrls(rows)
    ensures NoTies(rows)
  {
    forall stream, x, y | x in rows && y in rows && Rank(stream)(x, y) && Rank(stream)(y, x) ensures x == y {
      RankTies(stream, x, y);
    }
  }

  lemma NoTiesSubset(rows: seq<Row>, part: seq<Row>)
    requires NoTies(rows) && forall row :: row in part ==> row in rows
    ensures NoTies(part)
  {
    forall stream { Ordering.TieFreeSubset(Rank(stream), rows, part); }
  }

  lemma CandidatesPermuted(a: seq<Row>, b: seq<Row>, seen: set<string>, stream: Stream)
    requires multiset(a) == multiset(b) && NoTies(a)
    ensures UnselectedByScore(a, seen, stream) == UnselectedByScore(b, seen, stream)
  {
    var restA, restB := Counting.Filter(Unseen(seen), a), Counting.Filter(Unseen(seen), b);
    Counting.FilterPermuted(Unseen(seen), a, b);
    RankIsOrder(stream);
    Counting.FilterHolds(Unseen(seen), a);
    Ordering.TieFreeSubset(Rank(stream), a, restA);
    Ordering.SortOrderIndependent(Rank(stream), restA, restB);
  }

  /** When nothing ties, the same rows in any order give the same picks in the same order. */
  lemma {:induction false} PickedOrderIndependent(a: seq<Row>, b: seq<Row>, n: nat)
    requires multiset(a) == multiset(b) && NoTies(a)
    ensures Picked(a, n) == Picked(b, n)
  {
    hide NextPick, NoTies;
    if n > 0 {
      PickedOrderIndependent(a, b, n - 1);
      NextPickPermuted(a, b, Picked(a, n - 1));
    }
  }

  lemma NextPickPermuted(a: seq<Row>, b: seq<Row>, chosen: seq<Row>)
    requires multiset(a) == multiset(b) && NoTies(a)
    ensures NextPick(a, chosen) == NextPick(b, chosen)
  {
    hide NoTies;
    CandidatesPermuted(a, b, Urls(chosen), StreamAt(|chosen|));
  }

  /** The ranking of what is unselected is the same for every arrangement of the rows. */
  ghost predicate RanksAlike(rows: seq<Row>) {
    forall b, seen, stream :: multiset(b) == multiset(rows) ==>
      UnselectedByScore(b, seen, stream) == UnselectedByScore(rows, seen, stream)
  }

  lemma UnselectedAll(rows: seq<Row>, stream: Stream)
    ensures UnselectedByScore(rows, {}, stream) == Ordering.Sort(Rank(stream), rows)
  {
    Counting.FilterAll(Unseen({}), rows);
  }

  /** The ranking ignores the input order if and only if nothing ties. */
  lemma RankingOrderIndependentIff(rows: seq<Row>)
    ensures RanksAlike(rows) <==> NoTies(rows)
  {
    if NoTies(rows) {
      forall b, seen, stream | multiset(b) == multiset(rows)
        ensures UnselectedByScore(b, seen, stream) == UnselectedByScore(rows, seen, stream) {
        CandidatesPermuted(rows, b, seen, stream);
      }
    } else {
      var stream :| !Ordering.TieFree(Rank(stream), rows);
      var x, y :| x in rows && y in rows && Rank(stream)(x, y) && Rank(stream)(y, x) && x != y;
      TieShowsInRanking(rows, stream, x, y);
    }
  }

  lemma TieShowsInRanking(rows: seq<Row>, stream: Stream, x: Row, y: Row)
    requires x in rows && y in rows && Rank(stream)(x, y) && Rank(stream)(y, x) && x != y
    ensures !RanksAlike(rows)
  {
    hide Rank, RankLe, UnselectedByScore, Ordering.Sort, Ordering.TotalPreorder;
    var others := Counting.TwoInFront(rows, x, y);
    RankIsOrder(stream);
    UnselectedAll([x, y] + others, stream);
    UnselectedAll([y, x] + others, stream);
    Ordering.SortShowsTie(Rank(stream), x, y, others);
  }

  // ----- The two global rows, and the whole selection -----

  function Excluding(url: string): Row -> bool {
    (row: Row) => row.url != url
  }

  /** The lowest remaining row of a stream, preferring a kind not selected yet. */
  function GlobalPick(remaining: seq<Row>, kinds: set<string>, stream: Stream): Option<Row> {
    var candidates := UnselectedByScore(remaining, {}, stream);
    if candidates == [] then None else Some(PreferNovelKind(candidates, kinds))
  }

  function GlobalRows(remaining: seq<Row>, kinds: set<string>): seq<Row> {
    match GlobalPick(remaining, kinds, WebScore)
    case None => (match GlobalPick(remaining, kinds, AeoScore) case None => [] case Some(row) => [row])
    case Some(first) =>
      var rest := Counting.Filter(Excluding(first.url), remaining);
      [first] + (match GlobalPick(rest, kinds + {first.pageKind}, AeoScore) case None => [] case Some(row) => [row])
  }

  method SelectGlobalRows(rows: seq<Row>, selected: seq<Row>) returns (additions: seq<Pick>)
    ensures Rows(additions) == GlobalRows(Counting.Filter(Unseen(Urls(selected)), rows), Kinds(selected))
    ensures |additions| == Min(2, |Urls(Counting.Filter(Unseen(Urls(selected)), rows))|)
    ensures forall i :: 0 <= i < |additions| ==>
              additions[i].reason == LowestRemaining(if i == 0 then WebScore else AeoScore)
  {
    hide UnselectedByScore, PreferNovelKind, Urls, Kinds, Counting.Filter, Excluding, Unseen;
    var seenKinds := Kinds(selected);
    var remaining := Counting.Filter(Unseen(Urls(selected)), rows);
    GlobalRowsSpec(remaining, seenKinds);
    additions := [];
    var candidates := UnselectedByScore(remaining, {}, WebScore);
    if candidates != [] {
      var candidate := PreferNovelKind(candidates, seenKinds);
      additions := additions + [Pick(candidate, LowestRemaining(WebScore))];
      remaining := Counting.Filter(Excluding(candidate.url), remaining);
      seenKinds := seenKinds + {candidate.pageKind};
    }
    candidates := UnselectedByScore(remaining, {}, AeoScore);
    if candidates != [] {
      var candidate := PreferNovelKind(candidates, seenKinds);
      additions := additions + [Pick(candidate, LowestRemaining(AeoScore))];
    }
  }

  lemma GlobalPickSpec(remaining: seq<Row>, kinds: set<string>, stream: Stream)
    ensures var r := GlobalPick(remaining, kinds, stream);
            && (r.None? <==> Urls(remaining) == {})
            && (r.Some? ==> r.value in remaining)
  {
  }

  /** Two rows are added, of different URLs, or one, or none, as far as distinct URLs remain. */
  lemma GlobalRowsSpec(remaining: seq<Row>, kinds: set<string>)
    ensures |GlobalRows(remaining, kinds)| == |Urls(GlobalRows(remaining, kinds))| == Min(2, |Urls(remaining)|)
    ensures forall row :: row in GlobalRows(remaining, kinds) ==> row in remaining
  {
    hide GlobalPick, Urls, Kinds;
    GlobalPickSpec(remaining, kinds, WebScore);
    GlobalPickSpec(remaining, kinds, AeoScore);
    var first := GlobalPick(remaining, kinds, WebScore);
    NoUrls();
    if first.Some? {
      var rest := Counting.Filter(Excluding(first.value.url), remaining);
      Counting.FilterHolds(Excluding(first.value.url), remaining);
      UrlsExcluding(remaining, first.value);
      GlobalPickSpec(rest, kinds + {first.value.pageKind}, AeoScore);
      var second := GlobalPick(rest, kinds + {first.value.pageKind}, AeoScore);
      assert [] + [first.value] == [first.value];
      UrlsAppend([], first.value);
      if second.Some? {
        UrlsAppend([first.value], second.value);
        UrlIn(rest, second.value);
        Ordering.SubsetCardinality({second.value.url}, Urls(rest));
        assert GlobalRows(remaining, kinds) == [first.value] + [second.value];
      } else {
        assert GlobalRows(remaining, kinds) == [first.value];
      }
    }
  }

  lemma UrlsExcluding(rows: seq<Row>, row: Row)
    requires row in rows
    ensures Urls(rows) == Urls(Counting.Filter(Excluding(row.url), rows)) + {row.url}
    ensures row.url !in Urls(Counting.Filter(Excluding(row.url), rows))
  {
    Counting.FilterHolds(Excluding(row.url), rows);
  }

  // ----- The whole selection -----

  /** The rows selected for the companies, in order. */
  function CompanyRows(rows: seq<Row>, companies: seq<string>): seq<Row> {
    if companies == [] then []
    else CompanyRows(rows, companies[..|companies| - 1]) + Picked(Pool(rows, companies[|companies| - 1]), 12)
  }

  method SelectCompanies(rows: seq<Row>) returns (selected: seq<Pick>)
    ensures Rows(selected) == CompanyRows(rows, COMPANIES)
  {
    hide Pool, Picked, Urls;
    selected := [];
    assert Rows([]) == [];
    for i := 0 to |COMPANIES|
      invariant Rows(selected) == CompanyRows(rows, COMPANIES[..i])
    {
      var chosen := SelectCompanyRows(rows, COMPANIES[i]);
      RowsAppend(selected, chosen);
      assert COMPANIES[..i + 1][..i] == COMPANIES[..i];
      selected := selected + chosen;
    }
    assert COMPANIES[..|COMPANIES|] == COMPANIES;
  }

  lemma RowsAppend(a: seq<Pick>, b: seq<Pick>)
    ensures Rows(a + b) == Rows(a) + Rows(b)
  {
  }

  /** Rows whose URL no company pick used. */
  function Leftover(rows: seq<Row>): seq<Row> {
    Counting.Filter(Unseen(Urls(CompanyRows(rows, COMPANIES))), rows)
  }

  function DistinctUrls(rows: seq<Row>, company: string): nat { |Urls(Pool(rows, company))| }

  lemma {:induction false} CompanyRowsCount(rows: seq<Row>, companies: seq<string>)
    ensures |CompanyRows(rows, companies)| <= 12 * |companies|
    ensures |CompanyRows(rows, companies)| == 12 * |companies|
       <==> forall company :: company in companies ==> DistinctUrls(rows, company) >= 12
  {
    hide Pool, Urls, Picked;
    if companies != [] {
      var front, last := companies[..|companies| - 1], companies[|companies| - 1];
      CompanyRowsCount(rows, front);
      PickedSpec(Pool(rows, last), 12);
      assert companies == front + [last];
      assert forall company :: company in companies <==> company in front || company == last;
      assert |Picked(Pool(rows, last), 12)| == Min(12, DistinctUrls(rows, last));
    }
  }

  /** Every company supplies twelve distinct URLs, and two distinct URLs are left over. */
  ghost predicate Enough(rows: seq<Row>) {
    (forall company :: company in COMPANIES ==> DistinctUrls(rows, company) >= 12) && |Urls(Leftover(rows))| >= 2
  }

  /** Fifty rows, or an error. It succeeds exactly when every company supplies twelve distinct URLs and two
      distinct URLs are left over. */
  method SelectRows(rows: seq<Row>) returns (selected: Option<seq<Pick>>)
    ensures selected.Some? <==> Enough(rows)
    ensures selected.Some? ==> |selected.value| == 50
    ensures selected.Some? ==> Rows(selected.value) == Selection(rows)
  {
    var picks := SelectCompanies(rows);
    var additions := SelectGlobalRows(rows, Rows(picks));
    CompanyRowsCount(rows, COMPANIES);
    RowsAppend(picks, additions);
    picks := picks + additions;
    if |picks| != 50 { return None; }
    selected := Some(picks);
  }

  /** The rows `SelectRows` returns when it succeeds. */
  function Selection(rows: seq<Row>): seq<Row> {
    CompanyRows(rows, COMPANIES) + GlobalRows(Leftover(rows), Kinds(CompanyRows(rows, COMPANIES)))
  }

  // ----- When nothing ties -----

  lemma PoolHolds(rows: seq<Row>, company: string)
    ensures forall row :: row in Pool(rows, company) <==> row in rows && row.company == company
  {
    Counting.FilterHolds((row: Row) => InCompany(company, row), rows);
  }

  lemma {:induction false} CompanyRowsPermuted(a: seq<Row>, b: seq<Row>, companies: seq<string>)
    requires multiset(a) == multiset(b) && NoTies(a)
    ensures CompanyRows(a, companies) == CompanyRows(b, companies)
  {
    if companies != [] {
      var last := companies[|companies| - 1];
      CompanyRowsPermuted(a, b, companies[..|companies| - 1]);
      Counting.FilterPermuted((row: Row) => InCompany(last, row), a, b);
      PoolHolds(a, last);
      NoTiesSubset(a, Pool(a, last));
      PickedOrderIndependent(Pool(a, last), Pool(b, last), 12);
    }
  }

  lemma GlobalPickPermuted(a: seq<Row>, b: seq<Row>, kinds: set<string>, stream: Stream)
    requires multiset(a) == multiset(b) && NoTies(a)
    ensures GlobalPick(a, kinds, stream) == GlobalPick(b, kinds, stream)
  {
    CandidatesPermuted(a, b, {}, stream);
  }

  lemma GlobalRowsPermuted(a: seq<Row>, b: seq<Row>, kinds: set<string>)
    requires multiset(a) == multiset(b) && NoTies(a)
    ensures GlobalRows(a, kinds) == GlobalRows(b, kinds)
  {
    hide GlobalPick;
    GlobalPickPermuted(a, b, kinds, WebScore);
    GlobalPickPermuted(a, b, kinds, AeoScore);
    var first := GlobalPick(a, kinds, WebScore);
    if first.Some? {
      var p := Excluding(first.value.url);
      Counting.FilterPermuted(p, a, b);
      Counting.FilterHolds(p, a);
      NoTiesSubset(a, Counting.Filter(p, a));
      GlobalPickPermuted(Counting.Filter(p, a), Counting.Filter(p, b), kinds + {first.value.pageKind}, AeoScore);
    }
  }

  /** When nothing ties, the selection does not depend on the order the rows came in. */
  lemma SelectionOrderIndependent(a: seq<Row>, b: seq<Row>)
    requires multiset(a) == multiset(b) && NoTies(a)
    ensures Selection(a) == Selection(b)
  {
    hide GlobalRows, CompanyRows;
    CompanyRowsPermuted(a, b, COMPANIES);
    var p := Unseen(Urls(CompanyRows(a, COMPANIES)));
    Counting.FilterPermuted(p, a, b);
    Counting.FilterHolds(p, a);
    NoTiesSubset(a, Counting.Filter(p, a));
    GlobalRowsPermuted(Leftover(a), Leftover(b), Kinds(CompanyRows(a, COMPANIES)));
  }

  // ----- When URLs are unique -----

  lemma LeftoverUrls(rows: seq<Row>)
    ensures Urls(Leftover(rows)) == Urls(rows) - Urls(CompanyRows(rows, COMPANIES))
  {
    hide CompanyRows;
    Counting.FilterHolds(Unseen(Urls(CompanyRows(rows, COMPANIES))), rows);
  }

  lemma UrlsJoin(a: seq<Row>, b: seq<Row>)
    ensures Urls(a + b) == Urls(a) + Urls(b)
  {
  }

  lemma DisjointUrls(rows: seq<Row>, a: seq<Row>, b: seq<Row>)
    requires UniqueUrls(rows)
    requires forall row :: row in a || row in b ==> row in rows
    requires forall x, y :: x in a && y in b ==> x.company != y.company
    ensures Urls(a) !! Urls(b)
  {
  }

  /** With unique URLs, different companies never pick the same URL. */
  lemma {:induction false} CompanyUrlsDistinct(rows: seq<Row>, companies: seq<string>)
    requires UniqueUrls(rows) && Ordering.NoDuplicates(companies)
    ensures var picked := CompanyRows(rows, companies);
            && |Urls(picked)| == |picked|
            && forall row :: row in picked ==> row in rows && row.company in companies
  {
    hide Picked, Pool, Urls;
    if companies == [] {
      NoUrls();
    } else {
      var front, last := companies[..|companies| - 1], companies[|companies| - 1];
      CompanyUrlsDistinct(rows, front);
      PickedSpec(Pool(rows, last), 12);
      PoolHolds(rows, last);
      assert last !in front && companies == front + [last];
      var before, picked := CompanyRows(rows, front), Picked(Pool(rows, last), 12);
      DisjointUrls(rows, before, picked);
      UrlsJoin(before, picked);
    }
  }

  lemma CompaniesDistinct()
    ensures Ordering.NoDuplicates(COMPANIES)
  {
  }

  lemma CompanyUrlsInside(rows: seq<Row>)
    requires UniqueUrls(rows)
    ensures Urls(CompanyRows(rows, COMPANIES)) <= Urls(rows)
  {
    hide CompanyRows;
    CompaniesDistinct();
    CompanyUrlsDistinct(rows, COMPANIES);
  }

  /** With unique URLs the condition can be read off the input: twelve URLs per company and fifty in all. */
  lemma EnoughRowsIff(rows: seq<Row>)
    requires UniqueUrls(rows)
    ensures Enough(rows)
       <==> (forall company :: company in COMPANIES ==> DistinctUrls(rows, company) >= 12) && |Urls(rows)| >= 50
  {
    hide CompanyRows, Urls, Leftover, DistinctUrls;
    LeftoverUrls(rows);
    CompaniesDistinct();
    CompanyUrlsDistinct(rows, COMPANIES);
    CompanyUrlsInside(rows);
    CompanyRowsCount(rows, COMPANIES);
    var all, picked := Urls(rows), Urls(CompanyRows(rows, COMPANIES));
    assert |COMPANIES| == 4;
    assert all == (all - picked) + picked;
    assert |all| == |all - picked| + |picked|;
  }
}
