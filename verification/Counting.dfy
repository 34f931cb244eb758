/** Counts and sums over lists, and what leaves them unchanged. */
module Counting {
  import Ordering

  function SumBy<T>(f: T -> int, s: seq<T>): int {
    if s == [] then 0 else f(s[0]) + SumBy(f, s[1..])
  }

  function CountIf<T>(p: T -> bool, s: seq<T>): nat {
    if s == [] then 0 else (if p(s[0]) then 1 else 0) + CountIf(p, s[1..])
  }

  function Filter<T>(p: T -> bool, s: seq<T>): (r: seq<T>)
    ensures forall i :: 0 <= i < |r| ==> p(r[i]) && r[i] in s
  {
    if s == [] then []
    else (if p(s[0]) then [s[0]] else []) + Filter(p, s[1..])
  }

  lemma {:induction false} FilterKeeps<T>(p: T -> bool, s: seq<T>, x: T)
    requires x in s && p(x)
    ensures x in Filter(p, s)
  {
    if x != s[0] { FilterKeeps(p, s[1..], x); }
  }

  lemma {:induction false} SumByAppend<T>(f: T -> int, a: seq<T>, b: seq<T>)
    ensures SumBy(f, a + b) == SumBy(f, a) + SumBy(f, b)
  {
    if a == [] {
      assert a + b == b;
    } else {
      SumByAppend(f, a[1..], b);
      assert (a + b)[1..] == a[1..] + b;
    }
  }

  function Without<T>(s: seq<T>, i: nat): seq<T>
    requires i < |s|
  {
    s[..i] + s[i + 1..]
  }

  lemma TakeOut<T>(s: seq<T>, i: nat)
    requires i < |s|
    ensures multiset(Without(s, i)) == multiset(s) - multiset{s[i]}
  {
    assert s == s[..i] + [s[i]] + s[i + 1..];
  }

  lemma {:induction false} TakeOutSum<T>(f: T -> int, s: seq<T>, i: nat)
    requires i < |s|
    ensures SumBy(f, s) == f(s[i]) + SumBy(f, Without(s, i))
  {
    if i == 0 {
      assert Without(s, 0) == s[1..];
    } else {
      TakeOutSum(f, s[1..], i - 1);
      assert Without(s, i)[1..] == Without(s[1..], i - 1);
    }
  }

  /** A sum does not depend on the order of the list. */
  lemma {:induction false} SumByPermuted<T>(f: T -> int, a: seq<T>, b: seq<T>)
    requires multiset(a) == multiset(b)
    ensures SumBy(f, a) == SumBy(f, b)
    decreases |a|
  {
    assert |a| == |multiset(a)| == |multiset(b)| == |b|;
    if a != [] {
      hide SumBy, Without;
      assert a[0] in multiset(b);
      var i :| 0 <= i < |b| && b[i] == a[0];
      TakeOut(a, 0);
      TakeOut(b, i);
      TakeOutSum(f, a, 0);
      TakeOutSum(f, b, i);
      WithoutLength(a, 0);
      SumByPermuted(f, Without(a, 0), Without(b, i));
    }
  }

  lemma WithoutLength<T>(s: seq<T>, i: nat)
    requires i < |s|
    ensures |Without(s, i)| == |s| - 1
  {
  }

  lemma {:induction false} CountIsSum<T>(p: T -> bool, s: seq<T>)
    ensures CountIf(p, s) == SumBy(x => if p(x) then 1 else 0, s)
    ensures CountIf(p, s) <= |s|
  {
    if s != [] { CountIsSum(p, s[1..]); }
  }

  lemma CountIfPermuted<T>(p: T -> bool, a: seq<T>, b: seq<T>)
    requires multiset(a) == multiset(b)
    ensures CountIf(p, a) == CountIf(p, b)
  {
    CountIsSum(p, a);
    CountIsSum(p, b);
    SumByPermuted(x => if p(x) then 1 else 0, a, b);
  }

  lemma {:induction false} CountIfAppend<T>(p: T -> bool, a: seq<T>, b: seq<T>)
    ensures CountIf(p, a + b) == CountIf(p, a) + CountIf(p, b)
  {
    if a == [] {
      assert a + b == b;
    } else {
      CountIfAppend(p, a[1..], b);
      assert (a + b)[1..] == a[1..] + b;
    }
  }

  lemma {:induction false} FilterAppend<T>(p: T -> bool, a: seq<T>, b: seq<T>)
    ensures Filter(p, a + b) == Filter(p, a) + Filter(p, b)
  {
    if a == [] {
      assert a + b == b;
    } else {
      FilterAppend(p, a[1..], b);
      assert (a + b)[1..] == a[1..] + b;
    }
  }

  lemma {:induction false} FilterNone<T>(p: T -> bool, s: seq<T>)
    requires forall x :: x in s ==> !p(x)
    ensures Filter(p, s) == []
  {
    if s != [] { FilterNone(p, s[1..]); }
  }

  lemma {:induction false} FilterAll<T>(p: T -> bool, s: seq<T>)
    requires forall x :: x in s ==> p(x)
    ensures Filter(p, s) == s
  {
    if s != [] {
      FilterAll(p, s[1..]);
      assert [s[0]] + s[1..] == s;
    }
  }

  lemma {:induction false} FilterMultiplicity<T>(p: T -> bool, s: seq<T>, x: T)
    ensures multiset(Filter(p, s))[x] == if p(x) then multiset(s)[x] else 0
  {
    if s != [] {
      FilterMultiplicity(p, s[1..], x);
      assert s == [s[0]] + s[1..];
    }
  }

  lemma FilterPermuted<T>(p: T -> bool, a: seq<T>, b: seq<T>)
    requires multiset(a) == multiset(b)
    ensures multiset(Filter(p, a)) == multiset(Filter(p, b))
  {
    forall x ensures multiset(Filter(p, a))[x] == multiset(Filter(p, b))[x] {
      FilterMultiplicity(p, a, x);
      FilterMultiplicity(p, b, x);
    }
  }

  lemma {:induction false} FilterHolds<T(!new)>(p: T -> bool, s: seq<T>)
    ensures forall x :: x in Filter(p, s) <==> x in s && p(x)
  {
    if s != [] { FilterHolds(p, s[1..]); }
  }

  function Restricted<T>(p: T -> bool, f: T -> int): T -> int {
    x => if p(x) then f(x) else 0
  }

  /** Filtering then measuring is measuring the elements kept. */
  lemma {:induction false} FilterSums<T>(p: T -> bool, f: T -> int, s: seq<T>)
    ensures SumBy(f, Filter(p, s)) == SumBy(Restricted(p, f), s)
    ensures |Filter(p, s)| == CountIf(p, s)
  {
    if s != [] {
      FilterSums(p, f, s[1..]);
      SumByAppend(f, if p(s[0]) then [s[0]] else [], Filter(p, s[1..]));
    }
  }

  lemma {:induction false} SumBySame<T>(f: T -> int, g: T -> int, s: seq<T>)
    requires forall x :: x in s ==> f(x) == g(x)
    ensures SumBy(f, s) == SumBy(g, s)
  {
    if s != [] { SumBySame(f, g, s[1..]); }
  }

  lemma {:induction false} CountIfSame<T>(p: T -> bool, q: T -> bool, s: seq<T>)
    requires forall x :: x in s ==> p(x) == q(x)
    ensures CountIf(p, s) == CountIf(q, s)
  {
    if s != [] { CountIfSame(p, q, s[1..]); }
  }

  // ----- Partitions -----

  function KeyIs<T, K(==)>(key: T -> K, k: K): T -> bool {
    x => key(x) == k
  }

  /** The elements with one key. */
  function Part<T, K(==)>(key: T -> K, k: K, s: seq<T>): seq<T> {
    Filter(KeyIs(key, k), s)
  }

  function PartSum<T, K(==)>(key: T -> K, f: T -> int, s: seq<T>): K -> int {
    k => SumBy(f, Part(key, k, s))
  }

  function Indicator<K(==)>(k0: K, v: int): K -> int {
    k => if k == k0 then v else 0
  }

  lemma {:induction false} IndicatorSum<K>(k0: K, v: int, keys: seq<K>)
    requires forall i, j :: 0 <= i < j < |keys| ==> keys[i] != keys[j]
    ensures SumBy(Indicator(k0, v), keys) == if k0 in keys then v else 0
  {
    if keys != [] {
      assert forall i :: 0 <= i < |keys[1..]| ==> keys[1..][i] == keys[i + 1];
      IndicatorSum(k0, v, keys[1..]);
      assert keys == [keys[0]] + keys[1..];
    }
  }

  lemma {:induction false} SumOfSums<T>(f: T -> int, g: T -> int, h: T -> int, s: seq<T>)
    requires forall x :: x in s ==> h(x) == f(x) + g(x)
    ensures SumBy(h, s) == SumBy(f, s) + SumBy(g, s)
  {
    if s != [] { SumOfSums(f, g, h, s[1..]); }
  }

  lemma {:induction false} SumOfZeros<T>(f: T -> int, s: seq<T>)
    requires forall x :: x in s ==> f(x) == 0
    ensures SumBy(f, s) == 0
  {
    if s != [] { SumOfZeros(f, s[1..]); }
  }

  /** The sums of the parts add up to the whole, when every key is listed once. */
  lemma {:induction false} PartitionSums<T, K(!new)>(key: T -> K, f: T -> int, keys: seq<K>, s: seq<T>)
    requires forall i, j :: 0 <= i < j < |keys| ==> keys[i] != keys[j]
    requires forall x :: x in s ==> key(x) in keys
    ensures SumBy(PartSum(key, f, s), keys) == SumBy(f, s)
  {
    if s == [] {
      SumOfZeros(PartSum(key, f, s), keys);
    } else {
      PartitionSums(key, f, keys, s[1..]);
      forall k ensures PartSum(key, f, s)(k) == Indicator(key(s[0]), f(s[0]))(k) + PartSum(key, f, s[1..])(k) {
        SumByAppend(f, if key(s[0]) == k then [s[0]] else [], Part(key, k, s[1..]));
      }
      SumOfSums(Indicator(key(s[0]), f(s[0])), PartSum(key, f, s[1..]), PartSum(key, f, s), keys);
      IndicatorSum(key(s[0]), f(s[0]), keys);
    }
  }

  lemma {:induction false} CountIfImplied<T>(p: T -> bool, q: T -> bool, s: seq<T>)
    requires forall x :: x in s && p(x) ==> q(x)
    ensures CountIf(p, s) <= CountIf(q, s) <= |s|
  {
    if s != [] { CountIfImplied(p, q, s[1..]); }
  }

  lemma SumByOne<T>(f: T -> int, x: T)
    ensures SumBy(f, [x]) == f(x)
  {
  }

  /** Adding up over a set of names does not depend on the order they are listed in. */
  lemma SumOverSet(f: string -> int, names: seq<string>, all: set<string>)
    requires Ordering.NoDuplicates(names) && forall x :: x in names <==> x in all
    ensures SumBy(f, Ordering.SortedStrings(all)) == SumBy(f, names)
  {
    Ordering.SortedStringsDistinct(all);
    Ordering.SameSetSameMultiset(Ordering.SortedStrings(all), names);
    SumByPermuted(f, Ordering.SortedStrings(all), names);
  }

  function One<T>(x: T): int { 1 }

  lemma {:induction false} OnesAreLength<T>(s: seq<T>)
    ensures SumBy(One, s) == |s|
  {
    if s != [] { OnesAreLength(s[1..]); }
  }

  lemma OneInFront<T>(s: seq<T>, x: T) returns (others: seq<T>)
    requires x in s
    ensures multiset(s) == multiset{x} + multiset(others)
  {
    var i :| 0 <= i < |s| && s[i] == x;
    TakeOut(s, i);
    others := Without(s, i);
  }

  /** Two different elements moved to the front, in either order. */
  lemma TwoInFront<T>(s: seq<T>, x: T, y: T) returns (others: seq<T>)
    requires x in s && y in s && x != y
    ensures multiset([x, y] + others) == multiset(s) == multiset([y, x] + others)
  {
    var rest := OneInFront(s, x);
    StillThere(s, x, y, rest);
    others := OneInFront(rest, y);
    InFront(x, y, others);
    InFront(y, x, others);
  }

  lemma StillThere<T>(s: seq<T>, x: T, y: T, rest: seq<T>)
    requires y in s && x != y && multiset(s) == multiset{x} + multiset(rest)
    ensures y in rest
  {
    assert y in multiset(s);
    assert y in multiset(rest);
  }

  lemma InFront<T>(x: T, y: T, others: seq<T>)
    ensures multiset([x, y] + others) == multiset{x} + multiset{y} + multiset(others)
  {
    assert [x, y] + others == [x] + ([y] + others);
  }

  /** The positions whose element has a property. */
  function Positions<T>(p: T -> bool, s: seq<T>): set<int> {
    set i | 0 <= i < |s| && p(s[i])
  }

  lemma {:induction false} PositionsCount<T>(p: T -> bool, s: seq<T>)
    ensures |Positions(p, s)| == CountIf(p, s)
  {
    if s != [] {
      var n := |s| - 1;
      var front := s[..n];
      PositionsCount(p, front);
      CountIfAppend(p, front, [s[n]]);
      assert s == front + [s[n]] && [s[n]][1..] == [];
      assert Positions(p, s) == Positions(p, front) + (if p(s[n]) then {n} else {});
    }
  }

  /** Changing one element changes a sum by the difference. */
  lemma {:induction false} SumByUpdate<T>(f: T -> int, s: seq<T>, k: nat, x: T)
    requires k < |s|
    ensures SumBy(f, s[k := x]) == SumBy(f, s) - f(s[k]) + f(x)
  {
    if k == 0 {
      assert s[0 := x][1..] == s[1..];
    } else {
      SumByUpdate(f, s[1..], k - 1, x);
      assert s[k := x][1..] == s[1..][k - 1 := x];
    }
  }

  /** The elements that have a property. */
  function Holding<T>(p: T -> bool, s: seq<T>): set<T> {
    set x | x in s && p(x)
  }

  lemma HoldingCons<T>(p: T -> bool, s: seq<T>)
    requires s != []
    ensures Holding(p, s) == Holding(p, s[1..]) + (if p(s[0]) then {s[0]} else {})
  {
    assert s == [s[0]] + s[1..];
  }

  /** Counting a list without duplicates counts its elements. */
  lemma {:induction false} DistinctCount<T>(p: T -> bool, s: seq<T>)
    requires Ordering.NoDuplicates(s)
    ensures CountIf(p, s) == |Holding(p, s)|
  {
    if s != [] {
      assert forall i :: 0 <= i < |s[1..]| ==> s[1..][i] == s[i + 1];
      DistinctCount(p, s[1..]);
      HoldingCons(p, s);
      assert s[0] !in Holding(p, s[1..]);
    }
  }
}
