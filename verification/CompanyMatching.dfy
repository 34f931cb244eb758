/** Scoring a proposed competitor set against the expected one: first-fit matching on company identity. */
module CompanyMatching {
  import opened Options
  import opened Normalization
  import Ordering

  // ----- Company identity -----

  const NON_DISTINCTIVE: set<string> := {
    "india", "indian", "australia", "australian", "usa", "us", "uk", "global", "group", "inc", "ltd",
    "limited", "services", "service", "home", "online", "store", "stores", "shop", "company", "co"
  }

  function WordSet(s: string): set<string> {
    set w | w in Split(s)
  }

  function Core(words: set<string>): set<string> {
    words - NON_DISTINCTIVE
  }

  predicate SameCompany(left: string, right: string) {
    left == right ||
    var l, r := WordSet(left), WordSet(right);
    var (shorter, longer) := if |l| <= |r| then (l, r) else (r, l);
    && shorter != {} && shorter <= longer
    && Core(shorter) != {}
    && Core(longer - shorter) == {}
  }

  /** Two names denote one company exactly when they are equal, or their word sets are nested and keep the
      same distinctive words, of which there is one. */
  lemma SameCompanyIff(left: string, right: string)
    ensures SameCompany(left, right) <==>
            || left == right
            || (&& (WordSet(left) <= WordSet(right) || WordSet(right) <= WordSet(left))
                && Core(WordSet(left)) == Core(WordSet(right)) != {})
  {
    NestedCores(WordSet(left), WordSet(right));
    NestedCores(WordSet(right), WordSet(left));
    if WordSet(left) <= WordSet(right) { Ordering.SubsetCardinality(WordSet(left), WordSet(right)); }
    if WordSet(right) <= WordSet(left) { Ordering.SubsetCardinality(WordSet(right), WordSet(left)); }
  }

  lemma NestedCores(shorter: set<string>, longer: set<string>)
    ensures shorter <= longer ==> (Core(longer - shorter) == {} <==> Core(longer) == Core(shorter))
  {
    if shorter <= longer {
      if Core(longer - shorter) == {} {
        forall w | w in Core(longer) ensures w in Core(shorter) {
          assert w in shorter || w in Core(longer - shorter);
        }
      } else {
        var w :| w in Core(longer - shorter);
        assert w in Core(longer) && w !in Core(shorter);
      }
    }
  }

  lemma SameCompanySymmetric(left: string, right: string)
    ensures SameCompany(left, right) <==> SameCompany(right, left)
  {
    SameCompanyIff(left, right);
    SameCompanyIff(right, left);
  }

  // ----- First-fit matching -----

  /** One-to-one pairs of the same company. */
  ghost predicate Matching(m: map<string, string>, expected: seq<string>, actual: seq<string>) {
    && (forall e :: e in m ==> e in expected && m[e] in actual && SameCompany(e, m[e]))
    && (forall e, f :: e in m && f in m && e != f ==> m[e] != m[f])
  }

  ghost predicate Maximal(m: map<string, string>, expected: seq<string>, actual: seq<string>) {
    forall e, a :: e in expected && a in actual && SameCompany(e, a) ==> e in m || a in m.Values
  }

  /** The first actual key that is free and of the same company. */
  function FirstFree(e: string, actual: seq<string>, taken: set<string>): (r: Option<string>)
    ensures r.Some? ==> r.value in actual && r.value !in taken && SameCompany(e, r.value)
    ensures r.None? ==> forall a :: a in actual && SameCompany(e, a) ==> a in taken
  {
    if actual == [] then None
    else if actual[0] !in taken && SameCompany(e, actual[0]) then Some(actual[0])
    else FirstFree(e, actual[1..], taken)
  }

  function Extend(m: map<string, string>, e: string, actual: seq<string>): map<string, string> {
    match FirstFree(e, actual, m.Values)
    case None => m
    case Some(a) => m[e := a]
  }

  /** Each expected key in turn takes the first actual key still free. */
  function FirstFit(expected: seq<string>, actual: seq<string>): map<string, string> {
    if expected == [] then map[]
    else Extend(FirstFit(expected[..|expected| - 1], actual), expected[|expected| - 1], actual)
  }

  lemma {:induction false} FirstFitIsMatching(expected: seq<string>, actual: seq<string>)
    requires Ordering.NoDuplicates(expected)
    ensures Matching(FirstFit(expected, actual), expected, actual)
    ensures Maximal(FirstFit(expected, actual), expected, actual)
  {
    hide Matching, Maximal, Extend;
    if expected == [] {
      EmptyMatching(actual);
    } else {
      var before, e := expected[..|expected| - 1], expected[|expected| - 1];
      FirstFitIsMatching(before, actual);
      assert e !in before;
      ExtendMatching(FirstFit(before, actual), before, e, actual);
      assert before + [e] == expected;
    }
  }

  lemma EmptyMatching(actual: seq<string>)
    ensures Matching(map[], [], actual) && Maximal(map[], [], actual)
  {
  }

  lemma ExtendMatching(m: map<string, string>, before: seq<string>, e: string, actual: seq<string>)
    requires Matching(m, before, actual) && Maximal(m, before, actual) && e !in before
    ensures Matching(Extend(m, e, actual), before + [e], actual)
    ensures Maximal(Extend(m, e, actual), before + [e], actual)
  {
    hide SameCompany, FirstFree;
    var m' := Extend(m, e, actual);
    assert e !in m;
    forall f, a | f in before + [e] && a in actual && SameCompany(f, a) ensures f in m' || a in m'.Values {
      if f in before && f !in m {
        assert a in m.Values;
        var g :| g in m && m[g] == a;
        assert m'[g] == a;
      }
    }
  }

  /** The free key found is the first: every earlier one of the same company is taken. */
  lemma {:induction false} FirstFreeIsFirst(e: string, actual: seq<string>, taken: set<string>, k: nat)
    requires k < |actual| && Ordering.NoDuplicates(actual)
    requires FirstFree(e, actual, taken) == Some(actual[k])
    ensures forall j :: 0 <= j < k && SameCompany(e, actual[j]) ==> actual[j] in taken
  {
    hide SameCompany;
    if !(actual[0] !in taken && SameCompany(e, actual[0])) {
      assert forall j :: 0 <= j < |actual[1..]| ==> actual[1..][j] == actual[j + 1];
      assert k > 0;
      FirstFreeIsFirst(e, actual[1..], taken, k - 1);
      forall j | 0 <= j < k && SameCompany(e, actual[j]) ensures actual[j] in taken {
        if j > 0 { assert actual[1..][j - 1] == actual[j]; }
      }
    }
  }

  /** Later keys change nothing about earlier ones. */
  lemma {:induction false} FitKeepsEarlier(expected: seq<string>, actual: seq<string>, n: nat)
    requires Ordering.NoDuplicates(expected) && n <= |expected|
    ensures forall i :: 0 <= i < n ==>
              && (expected[i] in FirstFit(expected, actual) <==> expected[i] in FirstFit(expected[..n], actual))
              && (expected[i] in FirstFit(expected, actual) ==>
                    FirstFit(expected, actual)[expected[i]] == FirstFit(expected[..n], actual)[expected[i]])
    decreases |expected|
  {
    hide FirstFree;
    if n == |expected| {
      assert expected[..n] == expected;
    } else {
      var before := expected[..|expected| - 1];
      FitKeepsEarlier(before, actual, n);
      assert before[..n] == expected[..n];
      assert forall i :: 0 <= i < n ==> before[i] == expected[i];
    }
  }

  /** Each expected key in turn gets the first actual key of its company that no earlier expected key has got; it gets
      none only if earlier ones have got them all. */
  lemma FirstFitIsFirst(expected: seq<string>, actual: seq<string>, i: nat, j: nat)
    requires Ordering.NoDuplicates(expected) && Ordering.NoDuplicates(actual)
    requires i < |expected| && j < |actual| && SameCompany(expected[i], actual[j])
    requires expected[i] in FirstFit(expected, actual) ==>
               exists k :: j < k < |actual| && FirstFit(expected, actual)[expected[i]] == actual[k]
    ensures exists earlier :: 0 <= earlier < i && expected[earlier] in FirstFit(expected, actual)
              && FirstFit(expected, actual)[expected[earlier]] == actual[j]
  {
    hide SameCompany, FirstFree;
    var front := expected[..i];
    var e := expected[i];
    FitKeepsEarlier(expected, actual, i + 1);
    FitKeepsEarlier(expected, actual, i);
    FirstFitIsMatching(front, actual);
    var taken := FirstFit(front, actual).Values;
    assert expected[..i + 1][..i] == front && expected[..i + 1][i] == e;
    assert e !in front && e !in FirstFit(front, actual);
    TakenUnlessFirst(e, actual, taken, j, FirstFit(expected[..i + 1], actual), FirstFit(front, actual));
    var f :| f in FirstFit(front, actual) && FirstFit(front, actual)[f] == actual[j];
    var earlier :| 0 <= earlier < i && front[earlier] == f;
    assert expected[earlier] == f;
  }

  lemma TakenUnlessFirst(e: string, actual: seq<string>, taken: set<string>, j: nat, after: map<string, string>, before: map<string, string>)
    requires Ordering.NoDuplicates(actual) && j < |actual| && SameCompany(e, actual[j])
    requires taken == before.Values && e !in before && after == Extend(before, e, actual)
    requires e in after ==> exists k :: j < k < |actual| && after[e] == actual[k]
    ensures actual[j] in taken
  {
    hide SameCompany;
    var r := FirstFree(e, actual, taken);
    if r.Some? {
      var k :| j < k < |actual| && after[e] == actual[k];
      FirstFreeIsFirst(e, actual, taken, k);
    }
  }

  // ----- How good first fit is -----

  ghost function Image(m: map<string, string>, keys: set<string>): set<string>
    requires keys <= m.Keys
  {
    set k | k in keys :: m[k]
  }

  lemma {:induction false} ImageSize(m: map<string, string>, keys: set<string>)
    requires keys <= m.Keys
    requires forall e, f :: e in keys && f in keys && e != f ==> m[e] != m[f]
    ensures |Image(m, keys)| == |keys|
  {
    if keys != {} {
      var k :| k in keys;
      ImageSize(m, keys - {k});
      assert Image(m, keys) == Image(m, keys - {k}) + {m[k]};
    }
  }

  lemma MatchingSides(m: map<string, string>, expected: seq<string>, actual: seq<string>)
    requires Matching(m, expected, actual)
    ensures |m.Keys| == |m.Values| == |m|
  {
    ImageSize(m, m.Keys);
    assert Image(m, m.Keys) == m.Values;
  }

  /** A maximal matching has at least half the size of any one-to-one matching. */
  lemma MaximalIsHalfOptimal(fit: map<string, string>, m: map<string, string>, expected: seq<string>, actual: seq<string>)
    requires Matching(fit, expected, actual) && Maximal(fit, expected, actual)
    requires Matching(m, expected, actual)
    ensures |m| <= 2 * |fit|
  {
    hide SameCompany;
    var byKey := set e | e in m && e in fit;
    var byValue := set e | e in m && m[e] in fit.Values;
    forall e | e in m ensures e in byKey + byValue {
      assert SameCompany(e, m[e]);
    }
    assert m.Keys == byKey + byValue;
    Ordering.SubsetCardinality(byKey, fit.Keys);
    ImageSize(m, byValue);
    assert forall v :: v in Image(m, byValue) ==> v in fit.Values;
    Ordering.SubsetCardinality(Image(m, byValue), fit.Values);
    MatchingSides(fit, expected, actual);
    assert |m.Keys| == |byKey + byValue| <= |byKey| + |byValue|;
  }

  /** First fit pairs at least half as many companies as the best one-to-one pairing could. */
  lemma FirstFitIsHalfOptimal(expected: seq<string>, actual: seq<string>, m: map<string, string>)
    requires Ordering.NoDuplicates(expected) && Matching(m, expected, actual)
    ensures |m| <= 2 * |FirstFit(expected, actual)|
  {
    FirstFitIsMatching(expected, actual);
    MaximalIsHalfOptimal(FirstFit(expected, actual), m, expected, actual);
  }

  lemma NormalSplit(tokens: seq<string>)
    requires NormalTokens(tokens)
    ensures Split(Join(tokens)) == tokens
  {
    JoinIsPlain(tokens);
    JoinWordsAndSpaces(tokens);
    SplitIsWords(Join(tokens));
    WordsOfJoin(tokens);
  }

  lemma WordSetOf(tokens: seq<string>)
    requires NormalTokens(tokens)
    ensures WordSet(Join(tokens)) == set w | w in tokens
  {
    NormalSplit(tokens);
  }

  // Four names of one company: a bare name, two market names, and one that nests only in some.
  const BARE := "nike"
  const INDIA := "nike india"
  const GROUP := "nike india group"
  const UK := "nike uk"

  lemma ExampleTokens()
    ensures LowerWord("nike") && LowerWord("india") && LowerWord("group") && LowerWord("uk")
  {
  }

  lemma TwoWords(a: string, b: string)
    requires LowerWord(a) && LowerWord(b)
    ensures WordSet(a) == {a} && WordSet(a + " " + b) == {a, b}
  {
    hide WordSet, LowerWord;
    JoinCons(a, []);
    JoinCons(b, []);
    JoinCons(a, [b]);
    assert [a] + [] == [a] && [b] + [] == [b] && [a] + [b] == [a, b];
    WordSetOf([a]);
    WordSetOf([a, b]);
  }

  lemma ThreeWords(a: string, b: string, c: string)
    requires LowerWord(a) && LowerWord(b) && LowerWord(c)
    ensures WordSet(a + " " + (b + " " + c)) == {a, b, c}
  {
    hide WordSet, LowerWord;
    JoinCons(c, []);
    JoinCons(b, [c]);
    JoinCons(a, [b, c]);
    assert [c] + [] == [c] && [b] + [c] == [b, c] && [a] + [b, c] == [a, b, c];
    WordSetOf([a, b, c]);
  }

  lemma ExampleWords()
    ensures WordSet(BARE) == {"nike"}
    ensures WordSet(INDIA) == {"nike", "india"}
    ensures WordSet(GROUP) == {"nike", "india", "group"}
    ensures WordSet(UK) == {"nike", "uk"}
    ensures "nike" !in NON_DISTINCTIVE && {"india", "group", "uk"} <= NON_DISTINCTIVE
  {
    hide WordSet, LowerWord;
    ExampleTokens();
    TwoWords("nike", "india");
    TwoWords("nike", "uk");
    ThreeWords("nike", "india", "group");
    assert "nike" + " " + "india" == INDIA;
    assert "nike" + " " + "uk" == UK;
    assert "nike" + " " + ("india" + " " + "group") == GROUP;
  }

  lemma ExampleCores()
    ensures Core({"nike"}) == Core({"nike", "india"}) == Core({"nike", "uk"}) == Core({"nike", "india", "group"}) == {"nike"}
    ensures {"nike"} != {}
    ensures !({"nike", "india", "group"} <= {"nike", "uk"}) && !({"nike", "uk"} <= {"nike", "india", "group"})
  {
  }

  lemma ExampleCompanies()
    ensures SameCompany(BARE, INDIA) && SameCompany(BARE, UK) && SameCompany(GROUP, INDIA)
    ensures !SameCompany(GROUP, UK)
  {
    hide WordSet, SameCompany, Core;
    ExampleWords();
    ExampleCores();
    SameCompanyIff(BARE, INDIA);
    SameCompanyIff(BARE, UK);
    SameCompanyIff(GROUP, INDIA);
    SameCompanyIff(GROUP, UK);
    assert |GROUP| != |UK|;
  }

  /** Company identity does not chain: two market names both match the bare name but not each other. */
  lemma SameCompanyNotTransitive()
    ensures SameCompany(GROUP, BARE) && SameCompany(BARE, UK) && !SameCompany(GROUP, UK)
  {
    hide WordSet, SameCompany, Core;
    ExampleWords();
    ExampleCores();
    ExampleCompanies();
    SameCompanyIff(GROUP, BARE);
  }

  /** The factor two is attained: first fit pairs one company where two could be paired. */
  lemma HalfIsAttained() returns (expected: seq<string>, actual: seq<string>, best: map<string, string>)
    ensures Ordering.NoDuplicates(expected) && Ordering.NoDuplicates(actual)
    ensures Matching(best, expected, actual) && |best| == 2 && |FirstFit(expected, actual)| == 1
  {
    hide SameCompany;
    ExampleCompanies();
    assert |BARE| < |UK| < |INDIA| < |GROUP|;
    expected, actual := [BARE, GROUP], [INDIA, UK];
    best := map[BARE := UK, GROUP := INDIA];
    assert expected[..1] == [BARE] && [BARE][..0] == [];
    assert actual[1..] == [UK] && [UK][1..] == [];
    assert FirstFit([BARE], actual) == map[BARE := INDIA];
    assert FirstFree(GROUP, actual, {INDIA}) == None;
  }

  // ----- The evaluation -----

  function KeyOf(name: string): string { Strip(NormalizeAlias(name)) }

  /** A dict from normalized key to name: keys in order of first insertion, the last name winning. */
  datatype Dict = Dict(keys: seq<string>, names: map<string, string>)

  function DictOf(names: seq<string>): (d: Dict)
    ensures Ordering.NoDuplicates(d.keys)
    ensures forall k :: k in d.keys <==> k in d.names
  {
    if names == [] then Dict([], map[])
    else
      var before, name := DictOf(names[..|names| - 1]), names[|names| - 1];
      var key := KeyOf(name);
      Dict(if key in before.names then before.keys else before.keys + [key], before.names[key := name])
  }

  /** The last name of its key. */
  ghost predicate LastOfKey(names: seq<string>, i: nat) {
    i < |names| && forall j :: i < j < |names| ==> KeyOf(names[j]) != KeyOf(names[i])
  }

  /** Some name has this key. */
  ghost predicate HasKey(names: seq<string>, key: string) {
    exists i :: 0 <= i < |names| && KeyOf(names[i]) == key
  }

  lemma HasKeyStep(names: seq<string>, key: string)
    requires names != []
    ensures HasKey(names, key) <==> HasKey(names[..|names| - 1], key) || KeyOf(names[|names| - 1]) == key
  {
    hide KeyOf;
    var before := names[..|names| - 1];
    if i :| 0 <= i < |before| && KeyOf(before[i]) == key { assert names[i] == before[i]; }
    if i :| 0 <= i < |names| && KeyOf(names[i]) == key {
      if i < |before| { assert before[i] == names[i]; }
    }
  }

  /** The keys are the normalized names. */
  lemma {:induction false} DictKeys(names: seq<string>, key: string)
    ensures key in DictOf(names).names <==> HasKey(names, key)
    decreases |names|
  {
    if names != [] {
      hide KeyOf, DictOf, HasKey;
      DictKeys(names[..|names| - 1], key);
      LastKey(names);
      HasKeyStep(names, key);
    }
  }

  lemma LastOfKeyBefore(names: seq<string>, i: nat)
    requires LastOfKey(names, i) && i < |names| - 1
    ensures LastOfKey(names[..|names| - 1], i) && KeyOf(names[|names| - 1]) != KeyOf(names[i])
  {
    hide KeyOf;
  }

  /** Each key stands for the last name it came from. */
  lemma {:induction false} DictNames(names: seq<string>, i: nat)
    requires LastOfKey(names, i)
    ensures KeyOf(names[i]) in DictOf(names).names && DictOf(names).names[KeyOf(names[i])] == names[i]
    decreases |names|
  {
    hide KeyOf, DictOf;
    LastKey(names);
    if i < |names| - 1 {
      LastOfKeyBefore(names, i);
      DictNames(names[..|names| - 1], i);
    }
  }

  lemma LastKey(names: seq<string>)
    requires names != []
    ensures var (before, key) := (DictOf(names[..|names| - 1]), KeyOf(names[|names| - 1]));
            && DictOf(names).names == before.names[key := names[|names| - 1]]
            && DictOf(names).keys == if key in before.names then before.keys else before.keys + [key]
  {
  }

  /** A name's key occurs before another key occurs at all. */
  ghost predicate MetBefore(names: seq<string>, a: string, b: string) {
    exists i :: 0 <= i < |names| && KeyOf(names[i]) == a && forall j :: 0 <= j <= i ==> KeyOf(names[j]) != b
  }

  lemma MetBeforeInMore(names: seq<string>, a: string, b: string)
    requires names != [] && MetBefore(names[..|names| - 1], a, b)
    ensures MetBefore(names, a, b)
  {
    hide KeyOf;
    var before := names[..|names| - 1];
    var i :| 0 <= i < |before| && KeyOf(before[i]) == a && forall j :: 0 <= j <= i ==> KeyOf(before[j]) != b;
    assert KeyOf(names[i]) == a;
    forall j | 0 <= j <= i ensures KeyOf(names[j]) != b { assert names[j] == before[j]; }
  }

  /** Keys are in the order first met. */
  lemma {:induction false} DictOrder(names: seq<string>, a: nat, b: nat)
    requires a < b < |DictOf(names).keys|
    ensures MetBefore(names, DictOf(names).keys[a], DictOf(names).keys[b])
    decreases |names|
  {
    if names != [] {
      hide KeyOf, DictOf, MetBefore;
      var before := names[..|names| - 1];
      LastKey(names);
      var keys := DictOf(before).keys;
      if b < |keys| {
        DictOrder(before, a, b);
        MetBeforeInMore(names, keys[a], keys[b]);
      } else {
        NewKeyIsLater(names, keys[a]);
      }
    }
  }

  lemma NewKeyIsLater(names: seq<string>, a: string)
    requires names != [] && KeyOf(names[|names| - 1]) !in DictOf(names[..|names| - 1]).names
    requires a in DictOf(names[..|names| - 1]).names
    ensures MetBefore(names, a, KeyOf(names[|names| - 1]))
  {
    hide KeyOf, DictOf;
    var before, key := names[..|names| - 1], KeyOf(names[|names| - 1]);
    DictKeys(before, a);
    var i :| 0 <= i < |before| && KeyOf(before[i]) == a;
    assert KeyOf(names[i]) == a;
    DictKeys(before, key);
    forall j | 0 <= j <= i ensures KeyOf(names[j]) != key { assert before[j] == names[j]; }
  }

  /** The names proposed, less those of white space only. */
  lemma {:induction false} NonBlankAre(names: seq<string>, name: string)
    ensures multiset(NonBlank(names))[name]
         == if exists k :: 0 <= k < |name| && !IsSpace(name[k]) then multiset(names)[name] else 0
  {
    StripEmptiesIff(name);
    if names != [] {
      NonBlankAre(names[1..], name);
      StripEmptiesIff(names[0]);
      assert names == [names[0]] + names[1..];
    }
  }

  function NonBlank(names: seq<string>): seq<string> {
    if names == [] then []
    else (if Strip(names[0]) != "" then [names[0]] else []) + NonBlank(names[1..])
  }

  function Without(keys: seq<string>, matched: set<string>): (r: seq<string>)
    ensures forall k :: k in r <==> k in keys && k !in matched
  {
    if keys == [] then []
    else (if keys[0] !in matched then [keys[0]] else []) + Without(keys[1..], matched)
  }

  /** The names of the unmatched keys, in key order. */
  function Unmatched(d: Dict, matched: set<string>): seq<string>
    requires forall k :: k in d.keys ==> k in d.names
  {
    var keys := Ordering.Sort(Ordering.StringLe, Without(d.keys, matched));
    Ordering.SameElements(keys, Without(d.keys, matched));
    seq(|keys|, i requires 0 <= i < |keys| => assert keys[i] in keys; d.names[keys[i]])
  }

  datatype CompetitorEvaluation =
    CompetitorEvaluation(precision: real, recall: real, missing: seq<string>, unexpected: seq<string>)

  /** The inner loop: skip taken keys, stop at the first of the same company. */
  method FindFree(e: string, actual: seq<string>, matchedActual: set<string>) returns (r: Option<string>)
    ensures r == FirstFree(e, actual, matchedActual)
  {
    hide SameCompany;
    assert actual[0..] == actual;
    for j := 0 to |actual|
      invariant FirstFree(e, actual, matchedActual) == FirstFree(e, actual[j..], matchedActual)
    {
      assert actual[j..][1..] == actual[j + 1..];
      if actual[j] in matchedActual {
        continue;
      }
      if SameCompany(e, actual[j]) {
        return Some(actual[j]);
      }
    }
    r := None;
  }

  /** The outer loop over the expected keys. */
  method MatchCompanies(expected: seq<string>, actual: seq<string>)
    returns (matchedExpected: set<string>, matchedActual: set<string>)
    requires Ordering.NoDuplicates(expected)
    ensures matchedExpected == FirstFit(expected, actual).Keys
    ensures matchedActual == FirstFit(expected, actual).Values
  {
    hide FirstFree, SameCompany, Matching, Maximal;
    matchedExpected, matchedActual := {}, {};
    for i := 0 to |expected|
      invariant matchedExpected == FirstFit(expected[..i], actual).Keys
      invariant matchedActual == FirstFit(expected[..i], actual).Values
    {
      ghost var fit := FirstFit(expected[..i], actual);
      NotYetMatched(expected, i, actual);
      assert expected[..i + 1][..i] == expected[..i];
      var free := FindFree(expected[i], actual, matchedActual);
      if free.Some? {
        ExtendedSides(fit, expected[i], free.value);
        matchedExpected := matchedExpected + {expected[i]};
        matchedActual := matchedActual + {free.value};
      }
    }
    assert expected[..|expected|] == expected;
  }

  lemma NotYetMatched(expected: seq<string>, i: nat, actual: seq<string>)
    requires Ordering.NoDuplicates(expected) && i < |expected|
    ensures expected[i] !in FirstFit(expected[..i], actual)
  {
    hide SameCompany;
    FirstFitIsMatching(expected[..i], actual);
    assert expected[i] !in expected[..i];
  }

  lemma ExtendedSides(m: map<string, string>, e: string, a: string)
    requires e !in m
    ensures m[e := a].Keys == m.Keys + {e} && m[e := a].Values == m.Values + {a}
  {
  }

  method EvaluateCompetitors(expectedNames: seq<string>, proposed: seq<string>) returns (r: CompetitorEvaluation)
    ensures var expected, actual := DictOf(expectedNames), DictOf(NonBlank(proposed));
            var fit := FirstFit(expected.keys, actual.keys);
            && r.precision == (if actual.keys == [] then 0.0 else |fit| as real / |actual.keys| as real)
            && r.recall == (if expected.keys == [] then 1.0 else |fit| as real / |expected.keys| as real)
            && r.missing == Unmatched(expected, fit.Keys)
            && r.unexpected == Unmatched(actual, fit.Values)
  {
    var expected, actual := DictOf(expectedNames), DictOf(NonBlank(proposed));
    var matchedExpected, matchedActual := MatchCompanies(expected.keys, actual.keys);
    FirstFitIsMatching(expected.keys, actual.keys);
    MatchingSides(FirstFit(expected.keys, actual.keys), expected.keys, actual.keys);
    r := CompetitorEvaluation(
      if actual.keys == [] then 0.0 else |matchedActual| as real / |actual.keys| as real,
      if expected.keys == [] then 1.0 else |matchedExpected| as real / |expected.keys| as real,
      Unmatched(expected, matchedExpected),
      Unmatched(actual, matchedActual));
  }

  lemma {:induction false} WithoutIsDistinct(keys: seq<string>, matched: set<string>)
    requires Ordering.NoDuplicates(keys)
    ensures Ordering.NoDuplicates(Without(keys, matched))
  {
    if keys != [] {
      assert forall i :: 0 <= i < |keys[1..]| ==> keys[1..][i] == keys[i + 1];
      WithoutIsDistinct(keys[1..], matched);
      assert keys[0] !in Without(keys[1..], matched);
    }
  }

  /** The names listed are those of exactly the unmatched keys, in strictly ascending key order. */
  lemma UnmatchedAre(d: Dict, matched: set<string>) returns (keys: seq<string>)
    requires Ordering.NoDuplicates(d.keys) && forall k :: k in d.keys ==> k in d.names
    ensures |keys| == |Unmatched(d, matched)| && forall k :: k in keys <==> k in d.keys && k !in matched
    ensures forall i, j :: 0 <= i < j < |keys| ==> Ordering.StringLe(keys[i], keys[j]) && keys[i] != keys[j]
    ensures forall i :: 0 <= i < |keys| ==> keys[i] in d.names && Unmatched(d, matched)[i] == d.names[keys[i]]
  {
    var rest := Without(d.keys, matched);
    keys := Ordering.Sort(Ordering.StringLe, rest);
    Ordering.StringLeOrder();
    Ordering.SortSorts(Ordering.StringLe, rest);
    Ordering.SameElements(keys, rest);
    WithoutIsDistinct(d.keys, matched);
    Ordering.CardinalityAtMost(rest);
    assert Ordering.Elements(keys) == Ordering.Elements(rest);
    Ordering.DistinctWhenCounted(keys);
  }
}
