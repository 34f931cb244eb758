/** The polling loop behind `GET /audits/{id}/events?stream=true`. */
module EventStream {
  import opened Options
  import opened EventLog

  datatype Status =
    | Draft | Validating | Queued | Running | Analyzing | Reporting
    | Completed | PartiallyCompleted | Failed | Cancelled

  predicate Terminal(status: Status) {
    status in {Completed, PartiallyCompleted, Failed, Cancelled}
  }

  datatype Outcome = Open | AuditGone | TerminalClose

  /** The poll decision: what the status read does to the grace counter and to the stream. */
  function Decide(full: bool, status: Option<Status>, terminalPolls: nat, grace: int): (nat, Outcome) {
    match status
    case None => (terminalPolls, AuditGone)
    case Some(st) =>
      if full then (terminalPolls, Open)
      else if Terminal(st) then
        (terminalPolls + 1, if terminalPolls + 1 >= grace then TerminalClose else Open)
      else (terminalPolls, Open)
  }

  /** What one poll sees: the table when the page is loaded, and later the audit's status. */
  datatype Observation = Observation(atLoad: Table, atStatus: Option<Status>)

  datatype Reader = Reader(lastId: Option<Id>, terminalPolls: nat, sent: seq<Key>, outcome: Outcome)

  function LastIdOr(page: seq<Key>, lastId: Option<Id>): Option<Id> {
    if page == [] then lastId else Some(page[|page| - 1].id)
  }

  function PollOnce(audit: Id, pageSize: nat, grace: int, r: Reader, ob: Observation): Reader {
    var page := LoadEvents(ob.atLoad, audit, r.lastId, Some(pageSize));
    var (polls, outcome) := Decide(|page| == pageSize, ob.atStatus, r.terminalPolls, grace);
    Reader(LastIdOr(page, r.lastId), polls, r.sent + page, outcome)
  }

  /** Polling through `obs` until the stream closes or the observations (the connection) end. */
  function Stream(audit: Id, pageSize: nat, grace: int, r: Reader, obs: seq<Observation>): Reader
    decreases |obs|
  {
    if r.outcome != Open || obs == [] then r
    else Stream(audit, pageSize, grace, PollOnce(audit, pageSize, grace, r, obs[0]), obs[1..])
  }

  function PollsUsed(audit: Id, pageSize: nat, grace: int, r: Reader, obs: seq<Observation>): nat
    decreases |obs|
  {
    if r.outcome != Open || obs == [] then 0
    else 1 + PollsUsed(audit, pageSize, grace, PollOnce(audit, pageSize, grace, r, obs[0]), obs[1..])
  }

  /** Yields the frames of one page, moving the resume cursor with each. */
  method YieldPage(page: seq<Key>, after: Option<Id>, yielded: seq<Key>)
    returns (lastId: Option<Id>, sent: seq<Key>)
    ensures lastId == LastIdOr(page, after)
    ensures sent == yielded + page
  {
    lastId, sent := after, yielded;
    for i := 0 to |page|
      invariant sent == yielded + page[..i]
      invariant lastId == LastIdOr(page[..i], after)
    {
      lastId := Some(page[i].id);
      sent := sent + [page[i]];
    }
    assert page[..|page|] == page;
  }

  /** The generator itself, with its loop variables and the frames it has yielded. */
  method RunStream(audit: Id, lastEventId: Option<Id>, pageSize: nat, grace: int, obs: seq<Observation>)
    returns (reader: Reader, polls: nat)
    ensures reader == Stream(audit, pageSize, grace, Reader(lastEventId, 0, [], Open), obs)
    ensures polls == PollsUsed(audit, pageSize, grace, Reader(lastEventId, 0, [], Open), obs)
  {
    hide LoadEvents;
    ghost var start := Reader(lastEventId, 0, [], Open);
    var lastId, terminalPolls, sent, outcome := lastEventId, 0, [], Open;
    polls := 0;
    assert obs[0..] == obs;
    while polls < |obs| && outcome == Open
      invariant polls <= |obs|
      invariant Stream(audit, pageSize, grace, start, obs)
             == Stream(audit, pageSize, grace, Reader(lastId, terminalPolls, sent, outcome), obs[polls..])
      invariant PollsUsed(audit, pageSize, grace, start, obs)
             == polls + PollsUsed(audit, pageSize, grace, Reader(lastId, terminalPolls, sent, outcome), obs[polls..])
      decreases |obs| - polls
    {
      ghost var r := Reader(lastId, terminalPolls, sent, outcome);
      var page := LoadEvents(obs[polls].atLoad, audit, lastId, Some(pageSize));
      lastId, sent := YieldPage(page, lastId, sent);
      var status := obs[polls].atStatus;
      if status.None? {
        outcome := AuditGone;
      } else if |page| == pageSize {
        // A full page may not be the whole backlog: drain before the grace can close the stream.
      } else if Terminal(status.value) {
        terminalPolls := terminalPolls + 1;
        if terminalPolls >= grace {
          outcome := TerminalClose;
        }
      }
      assert Reader(lastId, terminalPolls, sent, outcome) == PollOnce(audit, pageSize, grace, r, obs[polls]);
      assert obs[polls..][1..] == obs[polls + 1..];
      polls := polls + 1;
    }
    reader := Reader(lastId, terminalPolls, sent, outcome);
  }

  // ----- A quiet terminal audit: the stream drains the backlog and closes on time -----

  lemma AscendingJoin(a: seq<Key>, b: seq<Key>)
    requires Ascending(a) && Ascending(b)
    requires a != [] ==> forall k :: k in b ==> KeyLt(a[|a| - 1], k)
    ensures Ascending(a + b)
  {
    forall i, j | 0 <= i < |a| && 0 <= j < |b| ensures KeyLt(a[i], b[j]) {
      assert b[j] in b;
      assert i == |a| - 1 || KeyLt(a[i], a[|a| - 1]);
    }
  }

  /** What remains after a page is what remained beyond the page's last event. */
  lemma RemainingBeyond(table: Table, audit: Id, after: Option<Id>, last: Key)
    requires last in Remaining(table, audit, after)
    ensures forall k :: k in Remaining(table, audit, Some(last.id)) <==> k in Remaining(table, audit, after) && KeyLt(last, k)
  {
  }

  /** A page followed by what then remains is what remained before it. */
  lemma RemainingAfterPage(table: Table, audit: Id, after: Option<Id>, limit: nat)
    ensures var page := LoadEvents(table, audit, after, Some(limit));
            page + Ordered(Remaining(table, audit, LastIdOr(page, after))) == Ordered(Remaining(table, audit, after))
  {
    hide Remaining, LoadEvents, Ordered;
    var rest := Remaining(table, audit, after);
    var page := LoadEvents(table, audit, after, Some(limit));
    var next := Remaining(table, audit, LastIdOr(page, after));
    PageSpec(table, audit, after, limit);
    OrderedSpec(rest);
    OrderedSpec(next);
    if page != [] {
      RemainingBeyond(table, audit, after, page[|page| - 1]);
      AscendingJoin(page, Ordered(next));
      assert forall k :: k in page + Ordered(next) <==> k in page || k in Ordered(next);
      AscendingUnique(page + Ordered(next), Ordered(rest));
    } else {
      assert page + Ordered(next) == Ordered(next);
    }
  }

  function Backlog(table: Table, audit: Id, after: Option<Id>): nat {
    |Remaining(table, audit, after)|
  }

  function Max(a: int, b: int): int { if a < b then b else a }

  /** Polls a quiet terminal audit still needs: the full pages of the backlog, then the grace. */
  function PollsToClose(backlog: nat, pageSize: nat, grace: int, terminalPolls: nat): (polls: nat)
    requires pageSize > 0
    ensures polls >= 1
  {
    backlog / pageSize + Max(1, grace - terminalPolls)
  }

  /** One poll of a quiet terminal audit: a full page moves the backlog, a short one empties it and
      counts towards the grace. */
  lemma QuietPoll(audit: Id, pageSize: nat, grace: int, r: Reader, table: Table, status: Status)
    requires pageSize > 0 && Terminal(status) && r.outcome == Open
    ensures var rest := Remaining(table, audit, r.lastId);
            var r' := PollOnce(audit, pageSize, grace, r, Observation(table, Some(status)));
            var rest' := Remaining(table, audit, r'.lastId);
            && r'.sent + Ordered(rest') == r.sent + Ordered(rest)
            && if |rest| >= pageSize then
                 |rest| == |rest'| + pageSize && r'.outcome == Open && r'.terminalPolls == r.terminalPolls
               else
                 && |rest'| == 0 && r'.terminalPolls == r.terminalPolls + 1
                 && r'.outcome == (if r'.terminalPolls >= grace then TerminalClose else Open)
  {
    var rest := Remaining(table, audit, r.lastId);
    var page := LoadEvents(table, audit, r.lastId, Some(pageSize));
    var rest' := Remaining(table, audit, LastIdOr(page, r.lastId));
    PageSpec(table, audit, r.lastId, pageSize);
    RemainingAfterPage(table, audit, r.lastId, pageSize);
    assert |page| + |rest'| == |rest|;
    assert r.sent + (page + Ordered(rest')) == (r.sent + page) + Ordered(rest');
  }

  /** Once the audit is terminal and quiet, the loop closes after exactly `PollsToClose` polls, having
      sent the whole backlog in order, and never before. */
  lemma {:induction false} QuietStreamCloses(audit: Id, pageSize: nat, grace: int, r: Reader,
                                             table: Table, status: Status, obs: seq<Observation>)
    requires pageSize > 0 && Terminal(status) && r.outcome == Open
    requires forall i :: 0 <= i < |obs| ==> obs[i] == Observation(table, Some(status))
    ensures var needed := PollsToClose(Backlog(table, audit, r.lastId), pageSize, grace, r.terminalPolls);
            var end := Stream(audit, pageSize, grace, r, obs);
            if needed <= |obs| then
              && end.outcome == TerminalClose
              && end.sent == r.sent + Ordered(Remaining(table, audit, r.lastId))
              && PollsUsed(audit, pageSize, grace, r, obs) == needed
            else
              end.outcome == Open && PollsUsed(audit, pageSize, grace, r, obs) == |obs|
    decreases |obs|
  {
    hide Remaining, LoadEvents, Ordered, PollsToClose, Decide, LastIdOr;
    var rest := Remaining(table, audit, r.lastId);
    if obs != [] {
      var r' := PollOnce(audit, pageSize, grace, r, obs[0]);
      QuietPoll(audit, pageSize, grace, r, table, status);
      var rest' := Remaining(table, audit, r'.lastId);
      NeededStep(|rest|, |rest'|, pageSize, grace, r.terminalPolls, r'.terminalPolls);
      if r'.outcome == Open {
        QuietStreamCloses(audit, pageSize, grace, r', table, status, obs[1..]);
      } else {
        assert Ordered(rest') == [];
      }
    }
  }

  /** Every poll takes one off the polls still needed. */
  lemma NeededStep(before: nat, after: nat, pageSize: nat, grace: int, polls: nat, polls': nat)
    requires pageSize > 0
    requires if before >= pageSize then before == after + pageSize && polls' == polls
             else after == 0 && polls' == polls + 1
    ensures PollsToClose(before, pageSize, grace, polls)
         == if before >= pageSize || polls' < grace then 1 + PollsToClose(after, pageSize, grace, polls') else 1
  {
    if before >= pageSize {
      FullPage(after, pageSize);
    } else {
      SmallBacklog(before, pageSize);
      SmallBacklog(0, pageSize);
    }
  }

  lemma MultipleWithin(k: int, p: int)
    requires -p < k * p < p
    ensures k == 0
  {
  }

  lemma FullPage(rest: nat, pageSize: nat)
    requires pageSize > 0
    ensures (rest + pageSize) / pageSize == rest / pageSize + 1
  {
    var q, q' := rest / pageSize, (rest + pageSize) / pageSize;
    assert rest == q * pageSize + rest % pageSize;
    assert rest + pageSize == q' * pageSize + (rest + pageSize) % pageSize;
    assert (q' - q - 1) * pageSize == rest % pageSize - (rest + pageSize) % pageSize;
    MultipleWithin(q' - q - 1, pageSize);
  }

  lemma SmallBacklog(rest: nat, pageSize: nat)
    requires rest < pageSize
    ensures rest / pageSize == 0
  {
  }

  // ----- When a stream ends, and when it stays open -----

  /** The reader before the last poll used, and that poll. */
  lemma {:induction false} LastPoll(audit: Id, pageSize: nat, grace: int, r: Reader, obs: seq<Observation>)
    requires r.outcome == Open && obs != []
    ensures var used := PollsUsed(audit, pageSize, grace, r, obs);
            && 1 <= used <= |obs|
            && var before := Stream(audit, pageSize, grace, r, obs[..used - 1]);
               var end := Stream(audit, pageSize, grace, r, obs);
               && before.outcome == Open
               && end == PollOnce(audit, pageSize, grace, before, obs[used - 1])
               && (used < |obs| ==> end.outcome != Open)
    decreases |obs|
  {
    hide PollOnce;
    var r1 := PollOnce(audit, pageSize, grace, r, obs[0]);
    if r1.outcome != Open || |obs| == 1 {
      assert PollsUsed(audit, pageSize, grace, r1, obs[1..]) == 0;
      assert obs[..0] == [];
    } else {
      LastPoll(audit, pageSize, grace, r1, obs[1..]);
      var used := PollsUsed(audit, pageSize, grace, r, obs);
      assert obs[..used - 1][0] == obs[0] && obs[..used - 1][1..] == obs[1..][..used - 2];
    }
  }

  /** How a stream ends, told from the last poll it used: the audit is gone exactly when that poll found none;
      it closes exactly when that poll found a terminal status behind a page that was not full, and with it the
      grace was used up; otherwise it is still open, and every observation has been used. */
  lemma StreamEndsIff(audit: Id, pageSize: nat, grace: int, r: Reader, obs: seq<Observation>)
    requires r.outcome == Open && obs != []
    ensures var used := PollsUsed(audit, pageSize, grace, r, obs);
            && 1 <= used <= |obs|
            && var (before, last) := (Stream(audit, pageSize, grace, r, obs[..used - 1]), obs[used - 1]);
               var end := Stream(audit, pageSize, grace, r, obs);
               var short := |LoadEvents(last.atLoad, audit, before.lastId, Some(pageSize))| != pageSize;
               && (end.outcome == AuditGone <==> last.atStatus == None)
               && (end.outcome == TerminalClose <==>
                    && short && before.terminalPolls + 1 >= grace
                    && last.atStatus in {Some(Completed), Some(PartiallyCompleted), Some(Failed), Some(Cancelled)})
               && (end.outcome == Open ==> used == |obs|)
  {
    hide LoadEvents;
    LastPoll(audit, pageSize, grace, r, obs);
  }

  /** While the audit is there and not terminal, the stream stays open and uses every poll, whatever is committed. */
  lemma {:induction false} RunningStreamStaysOpen(audit: Id, pageSize: nat, grace: int, r: Reader, obs: seq<Observation>)
    requires r.outcome == Open
    requires forall i :: 0 <= i < |obs| ==>
               obs[i].atStatus.Some?
               && obs[i].atStatus.value !in {Completed, PartiallyCompleted, Failed, Cancelled}
    ensures var end := Stream(audit, pageSize, grace, r, obs);
            && end.outcome == Open && end.terminalPolls == r.terminalPolls
            && PollsUsed(audit, pageSize, grace, r, obs) == |obs|
    decreases |obs|
  {
    hide LoadEvents;
    if obs != [] {
      assert obs[0].atStatus.Some?;
      RunningStreamStaysOpen(audit, pageSize, grace, PollOnce(audit, pageSize, grace, r, obs[0]), obs[1..]);
    }
  }

  /** The polls that observed a terminal status behind a page that was not full. */
  function ShortTerminalPolls(audit: Id, pageSize: nat, grace: int, r: Reader, obs: seq<Observation>): nat
    decreases |obs|
  {
    if r.outcome != Open || obs == [] then 0
    else
      (if |LoadEvents(obs[0].atLoad, audit, r.lastId, Some(pageSize))| != pageSize
          && obs[0].atStatus in {Some(Completed), Some(PartiallyCompleted), Some(Failed), Some(Cancelled)}
       then 1 else 0)
      + ShortTerminalPolls(audit, pageSize, grace, PollOnce(audit, pageSize, grace, r, obs[0]), obs[1..])
  }

  /** The grace counter counts exactly those. */
  lemma {:induction false} GraceCounts(audit: Id, pageSize: nat, grace: int, r: Reader, obs: seq<Observation>)
    ensures Stream(audit, pageSize, grace, r, obs).terminalPolls
         == r.terminalPolls + ShortTerminalPolls(audit, pageSize, grace, r, obs)
    decreases |obs|
  {
    hide LoadEvents;
    if r.outcome == Open && obs != [] {
      GraceCounts(audit, pageSize, grace, PollOnce(audit, pageSize, grace, r, obs[0]), obs[1..]);
    }
  }

  /** One poll of a quiet running audit: a page of the backlog goes out, and the stream stays open. */
  lemma RunningPoll(audit: Id, pageSize: nat, grace: int, r: Reader, table: Table, status: Status)
    requires pageSize > 0 && r.outcome == Open && status !in {Completed, PartiallyCompleted, Failed, Cancelled}
    ensures var rest := Remaining(table, audit, r.lastId);
            var r' := PollOnce(audit, pageSize, grace, r, Observation(table, Some(status)));
            var rest' := Remaining(table, audit, r'.lastId);
            && r'.outcome == Open && r'.sent + Ordered(rest') == r.sent + Ordered(rest)
            && |rest'| == (if |rest| >= pageSize then |rest| - pageSize else 0)
  {
    var rest := Remaining(table, audit, r.lastId);
    var page := LoadEvents(table, audit, r.lastId, Some(pageSize));
    var rest' := Remaining(table, audit, LastIdOr(page, r.lastId));
    PageSpec(table, audit, r.lastId, pageSize);
    RemainingAfterPage(table, audit, r.lastId, pageSize);
    assert |page| + |rest'| == |rest|;
    assert r.sent + (page + Ordered(rest')) == (r.sent + page) + Ordered(rest');
  }

  /** A quiet running audit: after the backlog's full pages and one more poll, exactly the backlog has been sent,
      in order, and the stream is still open, however many more polls there are. */
  lemma {:induction false} QuietStreamTails(audit: Id, pageSize: nat, grace: int, r: Reader,
                                            table: Table, status: Status, obs: seq<Observation>)
    requires pageSize > 0 && r.outcome == Open && status !in {Completed, PartiallyCompleted, Failed, Cancelled}
    requires forall i :: 0 <= i < |obs| ==> obs[i] == Observation(table, Some(status))
    requires |obs| > |Remaining(table, audit, r.lastId)| / pageSize
    ensures var end := Stream(audit, pageSize, grace, r, obs);
            && end.outcome == Open && end.sent == r.sent + Ordered(Remaining(table, audit, r.lastId))
            && PollsUsed(audit, pageSize, grace, r, obs) == |obs|
    decreases |obs|
  {
    hide Remaining, LoadEvents, Ordered, PollOnce;
    var rest := Remaining(table, audit, r.lastId);
    RunningPoll(audit, pageSize, grace, r, table, status);
    var r' := PollOnce(audit, pageSize, grace, r, obs[0]);
    var rest' := Remaining(table, audit, r'.lastId);
    if |rest| >= pageSize {
      FullPage(|rest'|, pageSize);
    } else {
      SmallBacklog(0, pageSize);
    }
    if |obs| > 1 {
      QuietStreamTails(audit, pageSize, grace, r', table, status, obs[1..]);
    } else {
      NotFull(|rest|, pageSize);
      NothingLeft(rest');
    }
  }

  lemma NotFull(rest: nat, pageSize: nat)
    requires pageSize > 0 && rest / pageSize < 1
    ensures rest < pageSize
  {
    if rest >= pageSize { FullPage(rest - pageSize, pageSize); }
  }

  lemma NothingLeft(rest: set<Key>)
    requires |rest| == 0
    ensures Ordered(rest) == []
  {
  }
}
