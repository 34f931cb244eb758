/** Any two rows that tie can make a successful corpus selection depend on the order of its input. */
module CorpusTies {
  import opened Options
  import opened CorpusSelection
  import Ordering
  import Counting

  // ----- Rows that always go first -----

  /** `a` ranks strictly before `b`. */
  predicate Before(stream: Stream, a: Row, b: Row) {
    RankLe(stream, a, b) && !RankLe(stream, b, a)
  }

  ghost predicate OneKind(rows: seq<Row>, kind: string) {
    forall row :: row in rows ==> row.pageKind == kind
  }

  /** Rows with early URLs rank before all others, in both streams. */
  ghost predicate EarlyFirst(pool: seq<Row>, early: set<string>) {
    forall stream, f, l :: f in pool && l in pool && f.url in early && l.url !in early ==> Before(stream, f, l)
  }

  /** Among rows of one kind the pick is simply the first in rank. */
  lemma OneKindPick(pool: seq<Row>, chosen: seq<Row>, kind: string)
    requires OneKind(pool, kind) && OneKind(chosen, kind) && NextPick(pool, chosen).Some?
    ensures NextPick(pool, chosen).value == UnselectedByScore(pool, Urls(chosen), StreamAt(|chosen|))[0]
  {
    hide UnselectedByScore, Urls;
    var candidates := UnselectedByScore(pool, Urls(chosen), StreamAt(|chosen|));
    assert candidates[0] in candidates && candidates[0] in pool;
    if chosen == [] {
      NoUrls();
      assert FirstNovel(candidates, {}).value == candidates[0];
    } else {
      assert chosen[0] in chosen && kind in Kinds(chosen);
      assert FirstNovel(candidates, Kinds(chosen)).None?;
    }
  }

  /** The first in rank is before or level with every other row. */
  lemma FirstInRank(pool: seq<Row>, seen: set<string>, stream: Stream, row: Row)
    requires row in pool && row.url !in seen
    ensures var candidates := UnselectedByScore(pool, seen, stream);
            candidates != [] && RankLe(stream, candidates[0], row)
  {
    var candidates := UnselectedByScore(pool, seen, stream);
    assert row in candidates;
    RankIsOrder(stream);
    Ordering.SortSorts(Rank(stream), Counting.Filter(Unseen(seen), pool));
    assert Ordering.Sorted(Rank(stream), candidates);
    var i :| 0 <= i < |candidates| && candidates[i] == row;
    assert Rank(stream)(row, row);
    assert Rank(stream)(candidates[0], candidates[i]);
  }

  lemma EarlyPick(pool: seq<Row>, chosen: seq<Row>, early: set<string>, kind: string, f: Row)
    requires OneKind(pool, kind) && OneKind(chosen, kind) && EarlyFirst(pool, early)
    requires f in pool && f.url in early && f.url !in Urls(chosen)
    ensures NextPick(pool, chosen).Some? && NextPick(pool, chosen).value in pool && NextPick(pool, chosen).value.url in early
  {
    hide UnselectedByScore, Urls, RankLe;
    FirstInRank(pool, Urls(chosen), StreamAt(|chosen|), f);
    OneKindPick(pool, chosen, kind);
    var pick := NextPick(pool, chosen).value;
    assert pick in UnselectedByScore(pool, Urls(chosen), StreamAt(|chosen|));
    assert pick.url !in early ==> Before(StreamAt(|chosen|), f, pick);
  }

  /** While early URLs remain, only early URLs are picked. */
  lemma {:induction false} EarlyPicked(pool: seq<Row>, n: nat, early: set<string>, kind: string)
    requires OneKind(pool, kind) && EarlyFirst(pool, early) && early <= Urls(pool) && n <= |early|
    ensures |Picked(pool, n)| == n == |Urls(Picked(pool, n))| && Urls(Picked(pool, n)) <= early
    ensures OneKind(Picked(pool, n), kind)
  {
    hide NextPick, EarlyFirst, Urls;
    PickedSpec(pool, n);
    Ordering.SubsetCardinality(early, Urls(pool));
    if n == 0 {
      NoUrls();
    } else {
      var chosen := Picked(pool, n - 1);
      EarlyPicked(pool, n - 1, early, kind);
      var f := Missing(pool, Urls(chosen), early);
      EarlyPick(pool, chosen, early, kind, f);
      UrlsAppend(chosen, NextPick(pool, chosen).value);
    }
  }

  lemma Missing(pool: seq<Row>, seen: set<string>, early: set<string>) returns (f: Row)
    requires early <= Urls(pool) && |seen| < |early|
    ensures f in pool && f.url in early && f.url !in seen
  {
    if early <= seen {
      Ordering.SubsetCardinality(early, seen);
      assert false;
    }
    var url :| url in early && url !in seen;
    f :| f in pool && f.url == url;
  }

  // ----- Twelve such rows for each company -----

  function UrlsFrom(fillers: seq<Row>, k: nat): set<string>
    requires |fillers| == 48 && k < 4
  {
    set i | 12 * k <= i < 12 * k + 12 :: fillers[i].url
  }

  /** Twelve rows a company, of the late rows' kind, with URLs of their own, all ranking before the late rows. */
  ghost predicate Filled(fillers: seq<Row>, late: seq<Row>, kind: string) {
    && |fillers| == 48 && OneKind(fillers, kind) && OneKind(late, kind)
    && (forall i :: 0 <= i < 48 ==> fillers[i].company == COMPANIES[i / 12])
    && (forall i, j :: 0 <= i < j < 48 ==> fillers[i].url != fillers[j].url)
    && (forall f, l :: f in fillers && l in late ==> f.url != l.url)
    && (forall stream, f, l :: f in fillers && l in late ==> Before(stream, f, l))
  }

  lemma TwelveUrls(fillers: seq<Row>, late: seq<Row>, kind: string, k: nat)
    requires Filled(fillers, late, kind) && k < 4
    ensures |UrlsFrom(fillers, k)| == 12
  {
    DistinctCount(fillers, 12 * k, 12);
    assert UrlsFrom(fillers, k) == set i | 12 * k <= i < 12 * k + 12 :: fillers[i].url;
  }

  lemma {:induction false} DistinctCount(rows: seq<Row>, from: nat, n: nat)
    requires from + n <= |rows| && forall i, j :: 0 <= i < j < |rows| ==> rows[i].url != rows[j].url
    ensures |set i | from <= i < from + n :: rows[i].url| == n
  {
    if n > 0 {
      DistinctCount(rows, from, n - 1);
      assert (set i | from <= i < from + n :: rows[i].url)
          == (set i | from <= i < from + (n - 1) :: rows[i].url) + {rows[from + n - 1].url};
    }
  }

  /** A company's pool holds its own twelve fillers, and otherwise only late rows. */
  lemma FilledPool(fillers: seq<Row>, late: seq<Row>, kind: string, k: nat)
    requires Filled(fillers, late, kind) && k < 4
    ensures var pool := Pool(fillers + late, COMPANIES[k]);
            && OneKind(pool, kind) && EarlyFirst(pool, UrlsFrom(fillers, k)) && UrlsFrom(fillers, k) <= Urls(pool)
  {
    hide Pool, Before;
    var pool := Pool(fillers + late, COMPANIES[k]);
    PoolHolds(fillers + late, COMPANIES[k]);
    CompaniesDistinct();
    forall i | 12 * k <= i < 12 * k + 12 ensures fillers[i].url in Urls(pool) {
      assert fillers[i] in fillers && fillers[i] in fillers + late && fillers[i] in pool;
    }
    forall row | row in pool ensures if row.url in UrlsFrom(fillers, k) then row in fillers else row in late {
      PoolRow(fillers, late, kind, k, row);
    }
  }

  lemma PoolRow(fillers: seq<Row>, late: seq<Row>, kind: string, k: nat, row: Row)
    requires Filled(fillers, late, kind) && k < 4 && row in fillers + late && row.company == COMPANIES[k]
    ensures if row.url in UrlsFrom(fillers, k) then row in fillers else row in late
  {
    hide Before;
    CompaniesDistinct();
    if row in fillers {
      var i :| 0 <= i < 48 && fillers[i] == row;
      assert COMPANIES[i / 12] == COMPANIES[k];
      assert i / 12 == k;
      assert row.url in UrlsFrom(fillers, k);
    } else {
      forall i | 12 * k <= i < 12 * k + 12 ensures fillers[i].url != row.url {
        assert fillers[i] in fillers;
      }
    }
  }

  /** Each company's twelve picks are its fillers. */
  lemma FillersPicked(fillers: seq<Row>, late: seq<Row>, kind: string, k: nat)
    requires Filled(fillers, late, kind) && k < 4
    ensures var pool := Pool(fillers + late, COMPANIES[k]);
            && Urls(Picked(pool, 12)) == UrlsFrom(fillers, k) && OneKind(Picked(pool, 12), kind)
            && DistinctUrls(fillers + late, COMPANIES[k]) >= 12
  {
    hide Filled, Urls, Pool, EarlyFirst, OneKind, UrlsFrom, Picked;
    var pool := Pool(fillers + late, COMPANIES[k]);
    assert |fillers| == 48 by { Sized(fillers, late, kind); }
    FilledPool(fillers, late, kind, k);
    TwelveUrls(fillers, late, kind, k);
    EarlyPicked(pool, 12, UrlsFrom(fillers, k), kind);
    Ordering.SubsetCardinality(Urls(Picked(pool, 12)), UrlsFrom(fillers, k));
    Ordering.SubsetCardinality(UrlsFrom(fillers, k), Urls(pool));
  }

  lemma Sized(fillers: seq<Row>, late: seq<Row>, kind: string)
    requires Filled(fillers, late, kind)
    ensures |fillers| == 48
  {
  }

  /** The company rows use exactly the fillers' URLs. */
  lemma {:induction false} CompanyUrls(fillers: seq<Row>, late: seq<Row>, kind: string, n: nat)
    requires Filled(fillers, late, kind) && n <= 4
    ensures var chosen := CompanyRows(fillers + late, COMPANIES[..n]);
            && OneKind(chosen, kind)
            && Urls(chosen) == set i | 0 <= i < 12 * n :: fillers[i].url
  {
    hide Filled, Pool, Picked, Urls;
    Sized(fillers, late, kind);
    if n == 0 {
      NoUrls();
    } else {
      CompanyUrls(fillers, late, kind, n - 1);
      FillersPicked(fillers, late, kind, n - 1);
      assert COMPANIES[..n][..n - 1] == COMPANIES[..n - 1];
      UrlsJoin(CompanyRows(fillers + late, COMPANIES[..n - 1]), Picked(Pool(fillers + late, COMPANIES[n - 1]), 12));
      assert (set i | 0 <= i < 12 * n :: fillers[i].url)
          == (set i | 0 <= i < 12 * (n - 1) :: fillers[i].url) + UrlsFrom(fillers, n - 1);
    }
  }

  /** So what is left over are the late rows, in their order. */
  lemma LateLeftOver(fillers: seq<Row>, late: seq<Row>, kind: string)
    requires Filled(fillers, late, kind)
    ensures var chosen := CompanyRows(fillers + late, COMPANIES);
            && |chosen| == 48 && Kinds(chosen) == {kind}
            && Leftover(fillers + late) == late
            && forall company :: company in COMPANIES ==> DistinctUrls(fillers + late, company) >= 12
  {
    hide CompanyRows, DistinctUrls, Before;
    var rows := fillers + late;
    var chosen := CompanyRows(rows, COMPANIES);
    CompanyUrls(fillers, late, kind, 4);
    assert COMPANIES[..4] == COMPANIES;
    forall company | company in COMPANIES ensures DistinctUrls(rows, company) >= 12 {
      var k :| 0 <= k < |COMPANIES| && COMPANIES[k] == company;
      FillersPicked(fillers, late, kind, k);
    }
    CompanyRowsCount(rows, COMPANIES);
    assert |chosen| == 12 * |COMPANIES|;
    OnlyKind(chosen, kind);
    var p := Unseen(Urls(chosen));
    Counting.FilterAppend(p, fillers, late);
    Counting.FilterNone(p, fillers);
    Counting.FilterAll(p, late);
  }

  lemma OnlyKind(rows: seq<Row>, kind: string)
    requires rows != [] && OneKind(rows, kind)
    ensures Kinds(rows) == {kind}
  {
    assert rows[0] in rows;
  }

  // ----- The two global rows -----

  lemma NothingNovel(candidates: seq<Row>, kind: string)
    requires candidates != [] && OneKind(candidates, kind)
    ensures PreferNovelKind(candidates, {kind}) == candidates[0]
  {
    assert FirstNovel(candidates, {kind}).None?;
  }

  lemma SortedHead(rows: seq<Row>, stream: Stream, kind: string)
    requires rows != [] && OneKind(rows, kind)
    ensures GlobalPick(rows, {kind}, stream) == Some(Ordering.Sort(Rank(stream), rows)[0])
  {
    hide Ordering.Sort, Rank, PreferNovelKind, UnselectedByScore;
    var candidates := Ordering.Sort(Rank(stream), rows);
    UnselectedAll(rows, stream);
    Ordering.SameElements(candidates, rows);
    NothingNovel(candidates, kind);
  }

  lemma SortTwo(a: Row, b: Row, stream: Stream)
    requires RankLe(stream, a, b)
    ensures Ordering.Sort(Rank(stream), [a, b]) == [a, b]
  {
    assert [a, b][1..] == [b] && [b][1..] == [];
    assert Ordering.Sort(Rank(stream), [b]) == [b];
  }

  /** With two rows that tie, the first of them is selected. */
  lemma FirstOfTie(x: Row, y: Row, z: Row, stream: Stream, kind: string)
    requires OneKind([x, y, z], kind) && RankLe(stream, x, y) && x.url == y.url != z.url
    requires stream == WebScore ==> RankLe(WebScore, y, z)
    requires stream == AeoScore ==> Before(WebScore, z, x) && Before(WebScore, z, y)
    ensures var g := GlobalRows([x, y, z], {kind});
            if stream == WebScore then g != [] && g[0] == x else |g| == 2 && g[1] == x
  {
    hide RankLe, Ordering.Sort, GlobalPick;
    SortedHead([x, y, z], WebScore, kind);
    if stream == WebScore {
      SortTwo(y, z, WebScore);
      SortThree(x, y, z);
    } else {
      LowestThird(x, y, z);
      assert Counting.Filter(Excluding(z.url), [x, y, z]) == [x, y] by { WithoutThird(x, y, z); }
      SortedHead([x, y], AeoScore, kind);
      SortTwo(x, y, AeoScore);
      assert {kind} + {z.pageKind} == {kind};
    }
  }

  lemma SortThree(x: Row, y: Row, z: Row)
    requires RankLe(WebScore, x, y) && Ordering.Sort(Rank(WebScore), [y, z]) == [y, z]
    ensures Ordering.Sort(Rank(WebScore), [x, y, z]) == [x, y, z]
  {
    assert [x, y, z][1..] == [y, z];
  }

  lemma LowestThird(x: Row, y: Row, z: Row)
    requires Before(WebScore, z, x) && Before(WebScore, z, y)
    ensures Ordering.Sort(Rank(WebScore), [x, y, z])[0] == z
  {
    hide Ordering.Sort;
    var sorted := Ordering.Sort(Rank(WebScore), [x, y, z]);
    RankIsOrder(WebScore);
    Ordering.SortSorts(Rank(WebScore), [x, y, z]);
    Ordering.SameElements(sorted, [x, y, z]);
    assert z in sorted;
    var i :| 0 <= i < |sorted| && sorted[i] == z;
    assert sorted[0] in [x, y, z];
    assert i != 0 ==> Rank(WebScore)(sorted[0], sorted[i]);
  }

  lemma WithoutThird(x: Row, y: Row, z: Row)
    requires x.url != z.url && y.url != z.url
    ensures Counting.Filter(Excluding(z.url), [x, y, z]) == [x, y]
  {
    var p := Excluding(z.url);
    assert [x, y, z] == [x, y] + [z];
    Counting.FilterAppend(p, [x, y], [z]);
    Counting.FilterAll(p, [x, y]);
    Counting.FilterNone(p, [z]);
  }

  // ----- The rows around a tie -----

  function Repeat(n: nat): (s: string)
    ensures |s| == n
  {
    if n == 0 then "" else "x" + Repeat(n - 1)
  }

  function Lower(a: real, b: real): real { if a <= b then a else b }

  /** A row that only exists to come before, or after, the rows that tie. */
  function Other(x: Row, company: string, i: nat, web: real, aeo: real): Row {
    Row("", company, x.url + Repeat(i + 1), x.pageKind, Some(web), Some(aeo))
  }

  function Fillers(x: Row, web: real, aeo: real): (r: seq<Row>)
    ensures |r| == 48
    ensures forall i :: 0 <= i < 48 ==> r[i] == Other(x, COMPANIES[i / 12], i, web, aeo)
  {
    seq(48, i requires 0 <= i < 48 => Other(x, COMPANIES[i / 12], i, web, aeo))
  }

  lemma FillersFill(x: Row, late: seq<Row>, web: real, aeo: real)
    requires OneKind(late, x.pageKind)
    requires forall l :: l in late ==> Score(l, WebScore) > web && Score(l, AeoScore) > aeo
    requires forall l :: l in late ==> |l.url| == |x.url| || |l.url| > |x.url| + 48
    ensures Filled(Fillers(x, web, aeo), late, x.pageKind)
  {
    var fillers := Fillers(x, web, aeo);
    forall i, j | 0 <= i < j < 48 ensures fillers[i].url != fillers[j].url {
      assert |fillers[i].url| < |fillers[j].url|;
    }
    forall f | f in fillers
      ensures |x.url| < |f.url| <= |x.url| + 48 && f.pageKind == x.pageKind
           && Score(f, WebScore) == web && Score(f, AeoScore) == aeo { }
  }

  /** The row that comes after a tie in web score, or takes the web pick before a tie in AEO score. */
  function Third(x: Row, y: Row, stream: Stream): Row {
    Other(x, "", 48,
          if stream == WebScore then Score(x, WebScore) + 1.0 else Lower(Score(x, WebScore), Score(y, WebScore)) - 1.0,
          Lower(Score(x, AeoScore), Score(y, AeoScore)))
  }

  /** The fillers around a tie. */
  function Around(x: Row, y: Row): seq<Row> {
    Fillers(x, Lower(Score(x, WebScore), Score(y, WebScore)) - 2.0, Lower(Score(x, AeoScore), Score(y, AeoScore)) - 2.0)
  }

  lemma ThirdApart(x: Row, y: Row, stream: Stream)
    requires RankLe(stream, x, y) && RankLe(stream, y, x)
    ensures var z := Third(x, y, stream);
            && z.pageKind == x.pageKind == y.pageKind && x.url == y.url && |z.url| == |x.url| + 49
            && (stream == WebScore ==> RankLe(WebScore, x, z) && RankLe(WebScore, y, z))
            && (stream == AeoScore ==> Before(WebScore, z, x) && Before(WebScore, z, y))
  {
    RankTies(stream, x, y);
  }

  lemma AroundFills(x: Row, y: Row, stream: Stream, late: seq<Row>)
    requires RankLe(stream, x, y) && RankLe(stream, y, x)
    requires forall l :: l in late ==> l == x || l == y || l == Third(x, y, stream)
    ensures Filled(Around(x, y), late, x.pageKind)
  {
    hide RankLe;
    RankTies(stream, x, y);
    ThirdApart(x, y, stream);
    FillersFill(x, late, Lower(Score(x, WebScore), Score(y, WebScore)) - 2.0, Lower(Score(x, AeoScore), Score(y, AeoScore)) - 2.0);
  }

  /** Every two different rows that tie in a stream occur together in rows from which a selection succeeds, but
      differs with the order those rows come in. */
  lemma TieShowsInSelection(x: Row, y: Row, stream: Stream) returns (rows: seq<Row>, swapped: seq<Row>)
    requires x != y && RankLe(stream, x, y) && RankLe(stream, y, x)
    ensures multiset(rows) == multiset(swapped) && x in rows && y in rows
    ensures Enough(rows) && Enough(swapped)
    ensures Selection(rows) != Selection(swapped)
  {
    hide RankLe, Before, Filled, Third, Around, GlobalRows, Enough, Selection;
    var z, fillers := Third(x, y, stream), Around(x, y);
    rows, swapped := fillers + [x, y, z], fillers + [y, x, z];
    ThirdApart(x, y, stream);
    AroundFills(x, y, stream, [x, y, z]);
    AroundFills(x, y, stream, [y, x, z]);
    FirstOfTie(x, y, z, stream, x.pageKind);
    FirstOfTie(y, x, z, stream, x.pageKind);
    AroundTie(fillers, x, y, z, x.pageKind);
    AroundTie(fillers, y, x, z, x.pageKind);
    SwapTwo(fillers, x, y, z);
  }

  lemma SwapTwo(fillers: seq<Row>, x: Row, y: Row, z: Row)
    ensures multiset(fillers + [x, y, z]) == multiset(fillers + [y, x, z])
    ensures x in fillers + [x, y, z] && y in fillers + [x, y, z]
  {
    assert x in [x, y, z] && y in [x, y, z];
  }

  lemma AroundTie(fillers: seq<Row>, x: Row, y: Row, z: Row, kind: string)
    requires Filled(fillers, [x, y, z], kind) && x.url != z.url
    ensures var rows := fillers + [x, y, z];
            && Enough(rows) && |Selection(rows)| >= 48
            && Selection(rows)[48..] == GlobalRows([x, y, z], {kind})
  {
    hide Filled, CompanyRows, GlobalRows, DistinctUrls, Leftover, Kinds;
    LateLeftOver(fillers, [x, y, z], kind);
    assert x in [x, y, z] && z in [x, y, z];
    UrlIn([x, y, z], x);
    UrlIn([x, y, z], z);
    Ordering.SubsetCardinality({x.url, z.url}, Urls([x, y, z]));
  }
}
