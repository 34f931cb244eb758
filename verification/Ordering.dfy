/** Orders on values and the stable sort that the ranked lists of the program rely on. */
module Ordering {

  ghost predicate TotalPreorder<T(!new)>(le: (T, T) -> bool) {
    && (forall x, y :: le(x, y) || le(y, x))
    && (forall x, y, z :: le(x, y) && le(y, z) ==> le(x, z))
  }

  ghost predicate Sorted<T>(le: (T, T) -> bool, s: seq<T>) {
    forall i, j :: 0 <= i < j < |s| ==> le(s[i], s[j])
  }

  /** No two different elements of `s` tie. */
  ghost predicate TieFree<T>(le: (T, T) -> bool, s: seq<T>) {
    forall x, y :: x in s && y in s && le(x, y) && le(y, x) ==> x == y
  }

  ghost predicate NoDuplicates<T>(s: seq<T>) {
    forall i, j :: 0 <= i < j < |s| ==> s[i] != s[j]
  }

  function Insert<T>(le: (T, T) -> bool, x: T, s: seq<T>): (r: seq<T>)
    ensures multiset(r) == multiset{x} + multiset(s)
    ensures |r| == |s| + 1
  {
    if s == [] || le(x, s[0]) then
      [x] + s
    else
      assert s == [s[0]] + s[1..];
      [s[0]] + Insert(le, x, s[1..])
  }

  /** Stable sort: elements that tie keep their order. */
  function Sort<T>(le: (T, T) -> bool, s: seq<T>): (r: seq<T>)
    ensures multiset(r) == multiset(s)
    ensures |r| == |s|
  {
    if s == [] then []
    else
      assert s == [s[0]] + s[1..];
      Insert(le, s[0], Sort(le, s[1..]))
  }

  lemma SameElements<T>(a: seq<T>, b: seq<T>)
    requires multiset(a) == multiset(b)
    ensures forall x :: x in a <==> x in b
    ensures |a| == |b|
  {
    forall x ensures x in a <==> x in b {
      assert x in a <==> x in multiset(a);
      assert x in b <==> x in multiset(b);
    }
    assert |multiset(a)| == |a| && |multiset(b)| == |b|;
  }

  lemma {:induction false} InsertSorted<T(!new)>(le: (T, T) -> bool, x: T, s: seq<T>)
    requires TotalPreorder(le) && Sorted(le, s)
    ensures Sorted(le, Insert(le, x, s))
  {
    if s == [] || le(x, s[0]) {
    } else {
      InsertSorted(le, x, s[1..]);
      var t := Insert(le, x, s[1..]);
      forall k | 0 <= k < |t| ensures le(s[0], t[k]) {
        assert t[k] in multiset(t);
        assert t[k] == x || t[k] in s[1..];
      }
    }
  }

  lemma {:induction false} SortSorts<T(!new)>(le: (T, T) -> bool, s: seq<T>)
    requires TotalPreorder(le)
    ensures Sorted(le, Sort(le, s))
  {
    if s != [] {
      SortSorts(le, s[1..]);
      InsertSorted(le, s[0], Sort(le, s[1..]));
    }
  }

  lemma SortedHeadsAgree<T(!new)>(le: (T, T) -> bool, a: seq<T>, b: seq<T>)
    requires Sorted(le, a) && Sorted(le, b)
    requires a != [] && multiset(a) == multiset(b)
    requires TieFree(le, a)
    ensures b != [] && a[0] == b[0]
  {
    SameElements(a, b);
    assert a[0] in b && b[0] in a;
    var i :| 0 <= i < |b| && b[i] == a[0];
    var j :| 0 <= j < |a| && a[j] == b[0];
    if i != 0 && j != 0 {
      assert le(b[0], b[i]) && le(a[0], a[j]);
    }
  }

  lemma TieFreeSubset<T(!new)>(le: (T, T) -> bool, s: seq<T>, t: seq<T>)
    requires TieFree(le, s) && forall x :: x in t ==> x in s
    ensures TieFree(le, t)
  {
  }

  /** Two sorted arrangements of the same elements agree when nothing ties. */
  lemma {:induction false} SortedUnique<T(!new)>(le: (T, T) -> bool, a: seq<T>, b: seq<T>)
    requires Sorted(le, a) && Sorted(le, b)
    requires multiset(a) == multiset(b)
    requires TieFree(le, a)
    ensures a == b
    decreases |a|
  {
    SameElements(a, b);
    if a != [] {
      SortedHeadsAgree(le, a, b);
      assert a == [a[0]] + a[1..] && b == [b[0]] + b[1..];
      assert multiset(a[1..]) == multiset(a) - multiset{a[0]};
      assert multiset(b[1..]) == multiset(b) - multiset{b[0]};
      TieFreeSubset(le, a, a[1..]);
      SortedUnique(le, a[1..], b[1..]);
    }
  }

  /** Sorting is independent of the order the elements arrived in when nothing ties. */
  lemma SortOrderIndependent<T(!new)>(le: (T, T) -> bool, a: seq<T>, b: seq<T>)
    requires TotalPreorder(le) && multiset(a) == multiset(b) && TieFree(le, a)
    ensures Sort(le, a) == Sort(le, b)
  {
    SortSorts(le, a);
    SortSorts(le, b);
    SameElements(a, Sort(le, a));
    SortedUnique(le, Sort(le, a), Sort(le, b));
  }

  /** Where an element goes: behind everything it is not level with or before. */
  lemma {:induction false} InsertAt<T>(le: (T, T) -> bool, x: T, s: seq<T>) returns (p: nat)
    ensures p <= |s| && Insert(le, x, s) == s[..p] + [x] + s[p..]
    ensures forall k :: 0 <= k < p ==> !le(x, s[k])
  {
    if s == [] || le(x, s[0]) {
      p := 0;
    } else {
      var q := InsertAt(le, x, s[1..]);
      p := q + 1;
      assert [s[0]] + (s[1..][..q] + [x] + s[1..][q..]) == s[..p] + [x] + s[p..];
      forall k | 0 <= k < p ensures !le(x, s[k]) { if k > 0 { assert s[1..][k - 1] == s[k]; } }
    }
  }

  /** `x` occurs somewhere before `y`. */
  ghost predicate OccursBefore<T>(s: seq<T>, x: T, y: T) {
    exists i, j :: 0 <= i < j < |s| && s[i] == x && s[j] == y
  }

  lemma FirstOccursBefore<T>(s: seq<T>, y: T)
    requires s != [] && y in s[1..]
    ensures OccursBefore(s, s[0], y)
  {
    var k :| 0 <= k < |s[1..]| && s[1..][k] == y;
    assert s[k + 1] == y;
  }

  lemma OccursBeforeInMore<T>(s: seq<T>, x: T, y: T)
    requires s != [] && OccursBefore(s[1..], x, y)
    ensures OccursBefore(s, x, y)
  {
    var i, j :| 0 <= i < j < |s[1..]| && s[1..][i] == x && s[1..][j] == y;
    assert s[i + 1] == x && s[j + 1] == y;
  }

  lemma SortedHolds<T>(le: (T, T) -> bool, s: seq<T>, k: nat)
    requires k < |s|
    ensures Sort(le, s)[k] in s
  {
    InSame(Sort(le, s), s, k);
  }

  lemma InSame<T>(a: seq<T>, b: seq<T>, k: nat)
    requires multiset(a) == multiset(b) && k < |a|
    ensures a[k] in b
  {
    assert a[k] in multiset(a);
    assert a[k] in multiset(b);
  }

  /** Elements that tie come out in the order they went in. */
  lemma {:induction false} SortIsStable<T>(le: (T, T) -> bool, s: seq<T>, i: nat, j: nat)
    requires i < j < |s| && le(Sort(le, s)[j], Sort(le, s)[i])
    ensures OccursBefore(s, Sort(le, s)[i], Sort(le, s)[j])
  {
    hide OccursBefore, Insert;
    var t := Sort(le, s[1..]);
    var p := InsertAt(le, s[0], t);
    var r := Sort(le, s);
    assert r == t[..p] + [s[0]] + t[p..];
    assert r[p] == s[0] && forall k :: 0 <= k < p ==> r[k] == t[k];
    if i == p {
      assert r[j] == t[j - 1];
      SortedHolds(le, s[1..], j - 1);
      FirstOccursBefore(s, r[j]);
    } else if j != p {
      var i', j' := if i < p then i else i - 1, if j < p then j else j - 1;
      assert r[i] == t[i'] && r[j] == t[j'];
      SortIsStable(le, s[1..], i', j');
      OccursBeforeInMore(s, r[i], r[j]);
    }
  }

  /** The sort is stable, so of two elements that tie the one that came first stays first. */
  lemma SortShowsTie<T(!new)>(le: (T, T) -> bool, x: T, y: T, others: seq<T>)
    requires TotalPreorder(le) && le(x, y) && le(y, x) && x != y
    ensures Sort(le, [x, y] + others) != Sort(le, [y, x] + others)
  {
    assert ([x, y] + others)[1..] == [y] + others && ([y] + others)[1..] == others;
    assert ([y, x] + others)[1..] == [x] + others && ([x] + others)[1..] == others;
    InsertTied(le, x, y, Sort(le, others));
  }

  lemma {:induction false} InsertTied<T(!new)>(le: (T, T) -> bool, x: T, y: T, s: seq<T>)
    requires TotalPreorder(le) && le(x, y) && le(y, x) && x != y
    ensures Insert(le, x, Insert(le, y, s)) != Insert(le, y, Insert(le, x, s))
  {
    if s == [] || le(y, s[0]) {
      assert Insert(le, y, s) == [y] + s && Insert(le, x, s) == [x] + s;
      assert Insert(le, x, [y] + s)[0] == x && Insert(le, y, [x] + s)[0] == y;
    } else {
      assert !le(x, s[0]);
      InsertTied(le, x, y, s[1..]);
      var sx, sy := Insert(le, x, s[1..]), Insert(le, y, s[1..]);
      assert ([s[0]] + sy)[1..] == sy && ([s[0]] + sx)[1..] == sx;
      assert Insert(le, x, [s[0]] + sy)[1..] == Insert(le, x, sy);
      assert Insert(le, y, [s[0]] + sx)[1..] == Insert(le, y, sx);
    }
  }

  /** Python's order on strings, by code point. */
  predicate StringLe(a: string, b: string) {
    a == [] || (b != [] && (a[0] < b[0] || (a[0] == b[0] && StringLe(a[1..], b[1..]))))
  }

  lemma {:induction false} StringLeTotal(a: string, b: string)
    ensures StringLe(a, b) || StringLe(b, a)
    decreases |a|
  {
    if a != [] && b != [] { StringLeTotal(a[1..], b[1..]); }
  }

  lemma {:induction false} StringLeTransitive(a: string, b: string, c: string)
    requires StringLe(a, b) && StringLe(b, c)
    ensures StringLe(a, c)
    decreases |a|
  {
    if a != [] && a[0] == b[0] == c[0] { StringLeTransitive(a[1..], b[1..], c[1..]); }
  }

  lemma {:induction false} StringLeAntisymmetric(a: string, b: string)
    requires StringLe(a, b) && StringLe(b, a)
    ensures a == b
    decreases |a|
  {
    if a != [] {
      StringLeAntisymmetric(a[1..], b[1..]);
      assert a == [a[0]] + a[1..] && b == [b[0]] + b[1..];
    }
  }

  lemma StringLeOrder()
    ensures TotalPreorder(StringLe)
    ensures forall s: seq<string> :: TieFree(StringLe, s)
  {
    forall x, y ensures StringLe(x, y) || StringLe(y, x) { StringLeTotal(x, y); }
    forall x, y, z | StringLe(x, y) && StringLe(y, z) ensures StringLe(x, z) { StringLeTransitive(x, y, z); }
    forall x, y | StringLe(x, y) && StringLe(y, x) ensures x == y { StringLeAntisymmetric(x, y); }
  }

  // ----- Sets of strings in order -----

  lemma LeastStringExists(s: set<string>) returns (x: string)
    requires s != {}
    ensures x in s && forall y :: y in s ==> StringLe(x, y)
  {
    x :| x in s;
    var rest := s - {x};
    StringLeOrder();
    while rest != {}
      invariant x in s && rest <= s
      invariant forall y :: y in s && y !in rest ==> StringLe(x, y)
      decreases rest
    {
      var y :| y in rest;
      if !StringLe(x, y) { x := y; }
      rest := rest - {y};
    }
  }

  function LeastString(s: set<string>): (x: string)
    requires s != {}
    ensures x in s && forall y :: y in s ==> StringLe(x, y)
  {
    assert exists x :: x in s && forall y :: y in s ==> StringLe(x, y) by {
      var x := LeastStringExists(s);
    }
    assert forall x, y :: x in s && y in s && StringLe(x, y) && StringLe(y, x) ==> x == y by {
      forall x, y | x in s && y in s && StringLe(x, y) && StringLe(y, x) ensures x == y { StringLeAntisymmetric(x, y); }
    }
    var x :| x in s && forall y :: y in s ==> StringLe(x, y);
    x
  }

  /** Python's `sorted` on a set of strings, or on the keys of a dict. */
  function SortedStrings(s: set<string>): (r: seq<string>)
    ensures forall x :: x in r <==> x in s
    ensures |r| == |s|
  {
    if s == {} then [] else [LeastString(s)] + SortedStrings(s - {LeastString(s)})
  }

  lemma {:induction false} SortedStringsDistinct(s: set<string>)
    ensures NoDuplicates(SortedStrings(s))
    ensures Sorted(StringLe, SortedStrings(s))
  {
    if s != {} {
      SortedStringsDistinct(s - {LeastString(s)});
    }
  }

  // ----- Cardinality facts used by several modules -----

  function Elements<T>(s: seq<T>): set<T> {
    set x | x in s
  }

  lemma {:induction false} CardinalityAtMost<T>(s: seq<T>)
    ensures |Elements(s)| <= |s|
    ensures NoDuplicates(s) ==> |Elements(s)| == |s|
  {
    if s != [] {
      CardinalityAtMost(s[1..]);
      assert Elements(s) == {s[0]} + Elements(s[1..]);
      if NoDuplicates(s) {
        assert forall i :: 0 <= i < |s[1..]| ==> s[1..][i] == s[i + 1];
        assert s[0] !in s[1..];
      }
    }
  }

  lemma {:induction false} DistinctWhenCounted<T>(s: seq<T>)
    requires |Elements(s)| == |s|
    ensures NoDuplicates(s)
  {
    if s != [] {
      CardinalityAtMost(s[1..]);
      assert Elements(s) == {s[0]} + Elements(s[1..]);
      DistinctWhenCounted(s[1..]);
      assert s[0] !in Elements(s[1..]);
      assert forall i :: 0 <= i < |s[1..]| ==> s[1..][i] == s[i + 1];
    }
  }

  lemma {:induction false} SubsetCardinality<T>(a: set<T>, b: set<T>)
    requires a <= b
    ensures |a| <= |b|
    ensures |a| == |b| ==> a == b
  {
    assert b == a + (b - a);
    assert |b| == |a| + |b - a|;
  }

  lemma {:induction false} NoDuplicatesCounts<T>(s: seq<T>, x: T)
    requires NoDuplicates(s)
    ensures multiset(s)[x] == if x in s then 1 else 0
  {
    if s != [] {
      assert s == [s[0]] + s[1..];
      assert forall i :: 0 <= i < |s[1..]| ==> s[1..][i] == s[i + 1];
      NoDuplicatesCounts(s[1..], x);
    }
  }

  /** Lists without duplicates that hold the same elements are permutations of each other. */
  lemma SameSetSameMultiset<T>(a: seq<T>, b: seq<T>)
    requires NoDuplicates(a) && NoDuplicates(b)
    requires forall x :: x in a <==> x in b
    ensures multiset(a) == multiset(b)
  {
    forall x ensures multiset(a)[x] == multiset(b)[x] {
      NoDuplicatesCounts(a, x);
      NoDuplicatesCounts(b, x);
    }
  }
}
