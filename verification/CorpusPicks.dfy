/** Which row is picked: the lowest eligible one of the stream whose turn it is, new page kinds first. */
module CorpusPicks {
  import opened Options
  import opened CorpusSelection
  import Ordering
  import Counting

  // ----- What the rank says -----

  /** A lower score ranks first; a row without a score ranks after every score up to a hundred; with equal scores, or
      both without, page kind decides, and then the URL. */
  lemma RankMeans(a: Row, b: Row)
    ensures a.web.Some? && b.web.Some? && a.web.value < b.web.value ==>
              RankLe(WebScore, a, b) && !RankLe(WebScore, b, a)
    ensures a.web.Some? && a.web.value <= 100.0 && b.web.None? ==> RankLe(WebScore, a, b) && !RankLe(WebScore, b, a)
    ensures a.aeo.Some? && b.aeo.Some? && a.aeo.value < b.aeo.value ==>
              RankLe(AeoScore, a, b) && !RankLe(AeoScore, b, a)
    ensures a.aeo.Some? && a.aeo.value <= 100.0 && b.aeo.None? ==> RankLe(AeoScore, a, b) && !RankLe(AeoScore, b, a)
    ensures a.web == b.web && a.pageKind != b.pageKind ==>
              (RankLe(WebScore, a, b) <==> Ordering.StringLe(a.pageKind, b.pageKind))
    ensures a.aeo == b.aeo && a.pageKind != b.pageKind ==>
              (RankLe(AeoScore, a, b) <==> Ordering.StringLe(a.pageKind, b.pageKind))
    ensures a.web == b.web && a.pageKind == b.pageKind ==> (RankLe(WebScore, a, b) <==> Ordering.StringLe(a.url, b.url))
    ensures a.aeo == b.aeo && a.pageKind == b.pageKind ==> (RankLe(AeoScore, a, b) <==> Ordering.StringLe(a.url, b.url))
  {
  }

  // ----- The lowest eligible row -----

  /** `row` is eligible, of a page kind not taken yet if any eligible row is, and ranks before every eligible row that
      is as good in that respect. */
  ghost predicate LowestOf(eligible: set<Row>, taken: set<string>, stream: Stream, row: Row) {
    && row in eligible
    && ((exists q :: q in eligible && q.pageKind !in taken) ==> row.pageKind !in taken)
    && (forall q :: q in eligible && (row.pageKind !in taken ==> q.pageKind !in taken) ==> RankLe(stream, row, q))
  }

  /** The rows of a list whose URL is not among those seen. */
  function Eligible(rows: seq<Row>, seen: set<string>): set<Row> {
    set row | row in rows && row.url !in seen
  }

  lemma CandidatesInRank(rows: seq<Row>, seen: set<string>, stream: Stream)
    ensures var candidates := UnselectedByScore(rows, seen, stream);
            && (forall row :: row in candidates <==> row in Eligible(rows, seen))
            && (forall i, j :: 0 <= i < j < |candidates| ==> RankLe(stream, candidates[i], candidates[j]))
  {
    var candidates := UnselectedByScore(rows, seen, stream);
    RankIsOrder(stream);
    Ordering.SortSorts(Rank(stream), Counting.Filter(Unseen(seen), rows));
    forall i, j | 0 <= i < j < |candidates| ensures RankLe(stream, candidates[i], candidates[j]) {
      assert Rank(stream)(candidates[i], candidates[j]);
    }
  }

  /** The first row of a new kind comes before every other row of a new kind. */
  lemma {:induction false} FirstNovelIsFirst(candidates: seq<Row>, kinds: set<string>, stream: Stream)
    requires forall i, j :: 0 <= i < j < |candidates| ==> RankLe(stream, candidates[i], candidates[j])
    requires FirstNovel(candidates, kinds).Some?
    ensures var row := FirstNovel(candidates, kinds).value;
            forall q :: q in candidates && q.pageKind !in kinds && q != row ==> RankLe(stream, row, q)
  {
    hide RankLe;
    assert candidates == [candidates[0]] + candidates[1..];
    if candidates[0].pageKind in kinds {
      assert forall i, j :: 0 <= i < j < |candidates[1..]| ==> RankLe(stream, candidates[1..][i], candidates[1..][j]);
      FirstNovelIsFirst(candidates[1..], kinds, stream);
    } else {
      forall q | q in candidates && q != candidates[0] ensures RankLe(stream, candidates[0], q) {
        var j :| 0 <= j < |candidates| && candidates[j] == q;
      }
    }
  }

  lemma RankIsReflexive(stream: Stream, row: Row)
    ensures RankLe(stream, row, row)
  {
    Ordering.StringLeTotal(row.url, row.url);
  }

  lemma PreferredIsLowest(rows: seq<Row>, seen: set<string>, kinds: set<string>, stream: Stream)
    requires UnselectedByScore(rows, seen, stream) != []
    ensures LowestOf(Eligible(rows, seen), kinds, stream, PreferNovelKind(UnselectedByScore(rows, seen, stream), kinds))
  {
    hide RankLe, UnselectedByScore;
    var candidates := UnselectedByScore(rows, seen, stream);
    CandidatesInRank(rows, seen, stream);
    var row := PreferNovelKind(candidates, kinds);
    RankIsReflexive(stream, row);
    if FirstNovel(candidates, kinds).Some? {
      FirstNovelIsFirst(candidates, kinds, stream);
    } else {
      FirstIsLowest(candidates, stream);
    }
  }

  lemma FirstIsLowest(candidates: seq<Row>, stream: Stream)
    requires candidates != []
    requires forall i, j :: 0 <= i < j < |candidates| ==> RankLe(stream, candidates[i], candidates[j])
    ensures forall q :: q in candidates ==> RankLe(stream, candidates[0], q)
  {
    hide RankLe;
    forall q | q in candidates ensures RankLe(stream, candidates[0], q) {
      RankIsReflexive(stream, q);
      var j :| 0 <= j < |candidates| && candidates[j] == q;
    }
  }

  lemma LowestIsLowest(rows: seq<Row>, seen: set<string>, stream: Stream)
    requires UnselectedByScore(rows, seen, stream) != []
    ensures LowestOf(Eligible(rows, seen), {}, stream, UnselectedByScore(rows, seen, stream)[0])
  {
    hide RankLe, UnselectedByScore;
    var candidates := UnselectedByScore(rows, seen, stream);
    CandidatesInRank(rows, seen, stream);
    FirstIsLowest(candidates, stream);
    assert candidates[0] in candidates;
  }

  // ----- A company's picks -----

  lemma {:induction false} PickedAt(pool: seq<Row>, n: nat, i: nat)
    requires i < |Picked(pool, n)|
    ensures Picked(pool, n)[..i] == Picked(pool, i)
    ensures NextPick(pool, Picked(pool, i)) == Some(Picked(pool, n)[i])
    decreases n
  {
    hide NextPick;
    var before := Picked(pool, n - 1);
    PickedLength(pool, n - 1);
    if i < |before| {
      PickedAt(pool, n - 1, i);
      assert Picked(pool, n)[..i] == before[..i];
    } else {
      assert Picked(pool, n) == before + [Picked(pool, n)[i]];
      if i < n - 1 {
        PickedStopsShort(pool, n - 1);
        assert false;
      }
      assert Picked(pool, n)[..i] == before;
    }
  }

  lemma {:induction false} PickedLength(pool: seq<Row>, n: nat)
    ensures |Picked(pool, n)| <= n
  {
    hide NextPick;
    if n > 0 { PickedLength(pool, n - 1); }
  }

  /** Fewer picks than asked for means nothing is left to pick. */
  lemma {:induction false} PickedStopsShort(pool: seq<Row>, n: nat)
    requires |Picked(pool, n)| < n
    ensures NextPick(pool, Picked(pool, n)).None?
  {
    hide NextPick;
    var before := Picked(pool, n - 1);
    if NextPick(pool, before).Some? {
      PickedStopsShort(pool, n - 1);
      assert false;
    }
  }

  /** Picks alternate between web score and AEO score, web score first. Each is the lowest row of its stream among
      the pool's rows with URLs not picked before; of the first eight, only rows of a page kind not picked before
      count, as long as there are any. */
  lemma PickIsLowest(pool: seq<Row>, n: nat, i: nat)
    requires i < |Picked(pool, n)|
    ensures var (picks, earlier) := (Picked(pool, n), Picked(pool, n)[..i]);
            LowestOf((set row | row in pool && forall e :: e in earlier ==> e.url != row.url),
                     if i < 8 then set e | e in earlier :: e.pageKind else {},
                     if i % 2 == 0 then WebScore else AeoScore,
                     picks[i])
  {
    hide LowestOf, UnselectedByScore, PreferNovelKind, Picked;
    PickedAt(pool, n, i);
    PickedLength(pool, n);
    var earlier := Picked(pool, n)[..i];
    var stream := if i % 2 == 0 then WebScore else AeoScore;
    assert |earlier| == i && StreamAt(i) == stream;
    assert (set row | row in pool && forall e :: e in earlier ==> e.url != row.url) == Eligible(pool, Urls(earlier));
    assert (set e | e in earlier :: e.pageKind) == Kinds(earlier);
    if i < 8 {
      PreferredIsLowest(pool, Urls(earlier), Kinds(earlier), stream);
    } else {
      LowestIsLowest(pool, Urls(earlier), stream);
    }
  }

  // ----- The two global rows -----

  lemma GlobalPickIsLowest(remaining: seq<Row>, kinds: set<string>, stream: Stream)
    requires GlobalPick(remaining, kinds, stream).Some?
    ensures LowestOf((set row | row in remaining), kinds, stream, GlobalPick(remaining, kinds, stream).value)
  {
    hide LowestOf, UnselectedByScore, PreferNovelKind;
    PreferredIsLowest(remaining, {}, kinds, stream);
    assert (set row | row in remaining) == Eligible(remaining, {});
  }

  /** The first global row is the lowest in web score, the second the lowest in AEO score among rows with another
      URL, rows of a page kind not selected yet first. */
  lemma GlobalRowsAreLowest(remaining: seq<Row>, kinds: set<string>)
    ensures var g := GlobalRows(remaining, kinds);
            && (g != [] ==> LowestOf((set row | row in remaining), kinds, WebScore, g[0]))
            && (|g| > 1 ==> LowestOf((set row | row in remaining && row.url != g[0].url), kinds + {g[0].pageKind}, AeoScore, g[1]))
  {
    hide LowestOf, GlobalPick;
    var first := GlobalPick(remaining, kinds, WebScore);
    GlobalPickSpec(remaining, kinds, WebScore);
    GlobalPickSpec(remaining, kinds, AeoScore);
    if first.Some? {
      GlobalPickIsLowest(remaining, kinds, WebScore);
      var rest := Counting.Filter(Excluding(first.value.url), remaining);
      Counting.FilterHolds(Excluding(first.value.url), remaining);
      assert (set row | row in rest) == set row | row in remaining && row.url != first.value.url;
      var second := GlobalPick(rest, kinds + {first.value.pageKind}, AeoScore);
      if second.Some? { GlobalPickIsLowest(rest, kinds + {first.value.pageKind}, AeoScore); }
    }
  }
}
