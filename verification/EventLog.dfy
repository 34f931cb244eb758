/** The append-only audit event table and the page query over it. */
module EventLog {
  import opened Options

  type Id = nat

  /** A committed row; the primary key is the map key of the table. */
  datatype Row = Row(audit: Id, at: int)

  type Table = map<Id, Row>

  /** The sort key of the composite index within one audit. */
  datatype Key = Key(at: int, id: Id)

  predicate KeyLt(a: Key, b: Key) {
    a.at < b.at || (a.at == b.at && a.id < b.id)
  }

  /** `k` lies strictly after the cursor; no cursor means the beginning. */
  predicate After(cursor: Option<Key>, k: Key) {
    cursor.None? || KeyLt(cursor.value, k)
  }

  ghost predicate Ascending(q: seq<Key>) {
    forall i, j :: 0 <= i < j < |q| ==> KeyLt(q[i], q[j])
  }

  /** The last key of `q`, or the cursor it continues from. */
  function LastOr(q: seq<Key>, cursor: Option<Key>): Option<Key> {
    if q == [] then cursor else Some(q[|q| - 1])
  }

  /** Every event of one audit, by key. */
  function KeysOf(table: Table, audit: Id): set<Key> {
    set id | id in table && table[id].audit == audit :: Key(table[id].at, id)
  }

  // ----- Key order -----

  lemma LeastExists(s: set<Key>) returns (k: Key)
    requires s != {}
    ensures k in s && forall x :: x in s ==> !KeyLt(x, k)
  {
    k :| k in s;
    var rest := s - {k};
    while rest != {}
      invariant k in s && rest <= s
      invariant forall x :: x in s && x !in rest ==> !KeyLt(x, k)
      decreases rest
    {
      var x :| x in rest;
      if KeyLt(x, k) { k := x; }
      rest := rest - {x};
    }
  }

  function Least(s: set<Key>): (k: Key)
    requires s != {}
    ensures k in s && forall x :: x in s ==> !KeyLt(x, k)
  {
    assert exists k :: k in s && forall x :: x in s ==> !KeyLt(x, k) by {
      var k := LeastExists(s);
    }
    var k :| k in s && forall x :: x in s ==> !KeyLt(x, k);
    k
  }

  /** The rows in `ORDER BY created_at, id`. */
  function Ordered(s: set<Key>): (q: seq<Key>)
    ensures |q| == |s|
  {
    if s == {} then [] else [Least(s)] + Ordered(s - {Least(s)})
  }

  lemma {:induction false} OrderedElements(s: set<Key>)
    ensures forall k :: k in Ordered(s) <==> k in s
  {
    if s != {} {
      var least := Least(s);
      OrderedElements(s - {least});
      forall k ensures k in Ordered(s) <==> k in s {
        assert k in Ordered(s) <==> k == least || k in Ordered(s - {least});
      }
    }
  }

  lemma {:induction false} OrderedSpec(s: set<Key>)
    ensures forall k :: k in Ordered(s) <==> k in s
    ensures Ascending(Ordered(s))
  {
    OrderedElements(s);
    if s != {} {
      var least := Least(s);
      var tail := Ordered(s - {least});
      OrderedSpec(s - {least});
      hide Ordered;
      forall k | k in tail ensures KeyLt(least, k) { assert k in s && !KeyLt(k, least); }
    }
  }

  /** An ascending list is determined by its elements. */
  lemma {:induction false} AscendingUnique(a: seq<Key>, b: seq<Key>)
    requires Ascending(a) && Ascending(b)
    requires forall k :: k in a <==> k in b
    ensures a == b
    decreases |a|
  {
    assert a != [] ==> a[0] in b;
    assert b != [] ==> b[0] in a;
    if a != [] {
      assert a[0] == b[0];
      assert forall k :: k in a[1..] <==> k in a && k != a[0];
      assert forall k :: k in b[1..] <==> k in b && k != b[0];
      AscendingUnique(a[1..], b[1..]);
      assert a == [a[0]] + a[1..] && b == [b[0]] + b[1..];
    }
  }

  // ----- The page query -----

  /** The keyset filter. A stale or foreign anchor has no timestamp, so nothing compares after it. */
  function Remaining(table: Table, audit: Id, after: Option<Id>): set<Key> {
    match after
    case None => KeysOf(table, audit)
    case Some(anchor) =>
      if anchor in table && table[anchor].audit == audit then
        set k | k in KeysOf(table, audit) && KeyLt(Key(table[anchor].at, anchor), k)
      else
        {}
  }

  /** One page of ordered events after an anchor; `limit` bounds one page. */
  function LoadEvents(table: Table, audit: Id, after: Option<Id>, limit: Option<nat>): seq<Key> {
    var rows := Ordered(Remaining(table, audit, after));
    if limit.Some? && limit.value < |rows| then rows[..limit.value] else rows
  }

  /** What remains after an anchor, row by row: the audit's events later than the anchor, or as late with a
      greater id; everything when there is no anchor; nothing when the anchor is not an event of this audit. */
  lemma RemainingIff(table: Table, audit: Id, after: Option<Id>, k: Key)
    ensures k in Remaining(table, audit, after) <==>
              && k.id in table && table[k.id].audit == audit && table[k.id].at == k.at
              && match after
                 case None => true
                 case Some(anchor) =>
                   && anchor in table && table[anchor].audit == audit
                   && (table[anchor].at < k.at || (table[anchor].at == k.at && anchor < k.id))
  {
  }

  /** The endpoint's guard on a cursor: it must name an event of this audit. */
  predicate CursorAuthorized(table: Table, audit: Id, cursor: Option<Id>) {
    cursor.Some? ==> cursor.value in table && table[cursor.value].audit == audit
  }

  /** A refused cursor is one the query would answer with nothing, whatever the table holds; it is never read as
      a request for everything. */
  lemma RefusedCursorReadsNothing(table: Table, audit: Id, cursor: Option<Id>, limit: Option<nat>)
    requires !CursorAuthorized(table, audit, cursor)
    ensures cursor.Some? && LoadEvents(table, audit, cursor, limit) == []
    ensures forall k :: k in KeysOf(table, audit) ==> k.id != cursor.value
  {
  }

  /** Taking a prefix of an ascending list leaves no gap before the last element taken. */
  lemma PrefixSpec(rows: seq<Key>, n: nat)
    requires Ascending(rows) && n <= |rows|
    ensures Ascending(rows[..n])
    ensures forall k :: k in rows ==> (k in rows[..n] <==> n != 0 && !KeyLt(rows[n - 1], k))
  {
  }

  /** A page is ascending, drawn from the remaining events, and leaves no gap up to its last event;
      a page that is not full is everything that remained. */
  lemma PageSpec(table: Table, audit: Id, after: Option<Id>, limit: nat)
    ensures var page := LoadEvents(table, audit, after, Some(limit));
            var rest := Remaining(table, audit, after);
            && Ascending(page)
            && (forall i, j :: 0 <= i < j < |page| ==>
                 page[i].at < page[j].at || (page[i].at == page[j].at && page[i].id < page[j].id))
            && |page| == (if limit < |rest| then limit else |rest|)
            && (forall k :: k in page ==> k in rest)
            && (forall k :: k in rest ==> (k in page <==> page != [] && !KeyLt(page[|page| - 1], k)))
            && (|page| != limit ==> forall k :: k in rest ==> k in page)
  {
    hide Remaining, Ordered;
    var rest := Remaining(table, audit, after);
    var rows := Ordered(rest);
    OrderedSpec(rest);
    if limit < |rows| {
      PrefixSpec(rows, limit);
    } else {
      PrefixSpec(rows, |rows|);
      assert rows[..|rows|] == rows;
    }
  }
}
