/** The polling loop runs inside the step system, so what the system guarantees holds of what the loop sends. */
module EventRefinement {
  import opened Options
  import opened EventLog
  import opened EventStream
  import opened EventDelivery
  import opened EventGuarantees

  // ----- Runs from any state -----

  ghost predicate CanRun(c: Config, s: State, steps: seq<Step>)
    decreases |steps|
  {
    steps == [] || (Enabled(c, s, steps[0]) && CanRun(c, Apply(c, s, steps[0]), steps[1..]))
  }

  ghost function RunAll(c: Config, s: State, steps: seq<Step>): State
    requires CanRun(c, s, steps)
    decreases |steps|
  {
    if steps == [] then s else RunAll(c, Apply(c, s, steps[0]), steps[1..])
  }

  lemma {:induction false} RunAppend(c: Config, s: State, first: seq<Step>, second: seq<Step>)
    requires CanRun(c, s, first) && CanRun(c, RunAll(c, s, first), second)
    ensures CanRun(c, s, first + second)
    ensures RunAll(c, s, first + second) == RunAll(c, RunAll(c, s, first), second)
    decreases |first|
  {
    if first == [] {
      assert first + second == second;
    } else {
      RunAppend(c, Apply(c, s, first[0]), first[1..], second);
      assert (first + second)[1..] == first[1..] + second;
    }
  }

  function Drain(n: nat): seq<Step> {
    if n == 0 then [] else [Yield, Receive] + Drain(n - 1)
  }

  /** Yielding a page frame by frame, each received in turn. */
  lemma {:induction false} DrainRuns(c: Config, s: State)
    requires s.phase.Paged? && s.wire == []
    ensures CanRun(c, s, Drain(|s.phase.rest|))
    ensures RunAll(c, s, Drain(|s.phase.rest|))
         == s.(phase := Paged([], s.phase.full), lastId := LastIdOr(s.phase.rest, s.lastId),
               received := s.received + s.phase.rest)
    decreases |s.phase.rest|
  {
    var rest := s.phase.rest;
    if rest == [] {
      assert s.received + rest == s.received;
    } else {
      var s1 := Apply(c, s, Yield);
      assert s1.wire == [rest[0]];
      var s2 := Apply(c, s1, Receive);
      assert s2.wire == [] && s2.received == s.received + [rest[0]];
      DrainRuns(c, s2);
      assert s2.received + rest[1..] == s.received + rest;
      var steps := Drain(|rest|);
      assert steps[0] == Yield && steps[1..][0] == Receive && steps[1..][1..] == Drain(|rest| - 1);
      assert CanRun(c, s1, steps[1..]);
    }
  }

  /** What writers do around one poll: before its page load, and between the load and the status read. */
  datatype Writes = Writes(before: seq<Step>, between: seq<Step>)

  function PhaseOf(outcome: Outcome): Phase {
    if outcome == Open then Ready else Ended(outcome)
  }

  ghost predicate Matches(s: State, r: Reader) {
    && s.phase == PhaseOf(r.outcome) && s.lastId == r.lastId
    && s.terminalPolls == r.terminalPolls && s.received == r.sent && s.wire == []
  }

  // ----- Writers alone -----

  function DatabaseOf(s: State): Database { Database(s.table, s.status) }

  ghost predicate AllWrites(steps: seq<Step>) {
    forall i :: 0 <= i < |steps| ==> IsWrite(steps[i])
  }

  ghost predicate WriteSeqOk(c: Config, db: Database, steps: seq<Step>)
    requires AllWrites(steps)
    decreases |steps|
  {
    steps == [] || (WriteOk(c, db, steps[0]) && WriteSeqOk(c, Write(c, db, steps[0]), steps[1..]))
  }

  ghost function WriteSeq(c: Config, db: Database, steps: seq<Step>): Database
    requires AllWrites(steps)
    decreases |steps|
  {
    if steps == [] then db else WriteSeq(c, Write(c, db, steps[0]), steps[1..])
  }

  /** The events of the audit committed by the end of `steps`, from those committed before. */
  ghost function LogAfter(c: Config, log: set<Key>, steps: seq<Step>): set<Key>
    decreases |steps|
  {
    if steps == [] then log
    else LogAfter(c, if steps[0].Commit? then log + KeysOf(steps[0].rows, c.audit) else log, steps[1..])
  }

  /** Writers touch neither the connection nor what has been delivered. */
  ghost predicate SameReader(s: State, s': State) {
    s' == s.(table := s'.table, status := s'.status, log := s'.log, behind := s'.behind)
  }

  lemma OneWrite(c: Config, s: State, step: Step)
    requires IsWrite(step) && WriteOk(c, DatabaseOf(s), step)
    ensures Enabled(c, s, step)
    ensures var s' := Apply(c, s, step);
            && DatabaseOf(s') == Write(c, DatabaseOf(s), step) && SameReader(s, s')
            && s'.log == LogAfter(c, s.log, [step])
  {
  }

  lemma {:induction false} WritesRun(c: Config, s: State, steps: seq<Step>)
    requires AllWrites(steps) && WriteSeqOk(c, DatabaseOf(s), steps)
    ensures CanRun(c, s, steps)
    ensures var s' := RunAll(c, s, steps);
            && DatabaseOf(s') == WriteSeq(c, DatabaseOf(s), steps) && SameReader(s, s')
            && s'.log == LogAfter(c, s.log, steps)
    decreases |steps|
  {
    hide WriteOk, Write, Enabled, Apply, KeysOf;
    if steps != [] {
      OneWrite(c, s, steps[0]);
      assert [steps[0]][1..] == [];
      WritesRun(c, Apply(c, s, steps[0]), steps[1..]);
    }
  }

  // ----- One poll -----

  /** Five stretches of a run make one run. */
  lemma ChainFive(c: Config, s: State, a: seq<Step>, b: Step, drain: seq<Step>, d: seq<Step>, e: Step)
    returns (steps: seq<Step>)
    requires CanRun(c, s, a) && Enabled(c, RunAll(c, s, a), b)
    requires CanRun(c, Apply(c, RunAll(c, s, a), b), drain)
    requires CanRun(c, RunAll(c, Apply(c, RunAll(c, s, a), b), drain), d)
    requires Enabled(c, RunAll(c, RunAll(c, Apply(c, RunAll(c, s, a), b), drain), d), e)
    ensures steps == a + [b] + drain + d + [e]
    ensures CanRun(c, s, steps)
    ensures RunAll(c, s, steps)
         == Apply(c, RunAll(c, RunAll(c, Apply(c, RunAll(c, s, a), b), drain), d), e)
  {
    hide *;
    var s1 := RunAll(c, s, a);
    OneStep(c, s1, b);
    RunAppend(c, s, a, [b]);
    RunAppend(c, s, a + [b], drain);
    RunAppend(c, s, a + [b] + drain, d);
    var s4 := RunAll(c, s, a + [b] + drain + d);
    OneStep(c, s4, e);
    RunAppend(c, s, a + [b] + drain + d, [e]);
    steps := a + [b] + drain + d + [e];
  }

  lemma OneStep(c: Config, s: State, step: Step)
    requires Enabled(c, s, step)
    ensures CanRun(c, s, [step]) && RunAll(c, s, [step]) == Apply(c, s, step)
  {
    assert [step][1..] == [];
  }

  /** The log recorded when a poll is the first to count a terminal status. */
  ghost function Noted(mark: Option<set<Key>>, r: Reader, r': Reader, log: set<Key>): Option<set<Key>> {
    if r.terminalPolls == 0 && r'.terminalPolls == 1 then Some(log) else mark
  }

  /** The writes among some steps. */
  function WritesIn(steps: seq<Step>): seq<Step>
    decreases |steps|
  {
    if steps == [] then [] else (if IsWrite(steps[0]) then [steps[0]] else []) + WritesIn(steps[1..])
  }

  lemma {:induction false} WritesInAppend(a: seq<Step>, b: seq<Step>)
    ensures WritesIn(a + b) == WritesIn(a) + WritesIn(b)
    decreases |a|
  {
    if a == [] {
      assert a + b == b;
    } else {
      WritesInAppend(a[1..], b);
      assert (a + b)[1..] == a[1..] + b;
    }
  }

  lemma {:induction false} OnlyWrites(steps: seq<Step>)
    requires AllWrites(steps)
    ensures WritesIn(steps) == steps
    decreases |steps|
  {
    if steps != [] {
      OnlyWrites(steps[1..]);
      assert [steps[0]] + steps[1..] == steps;
    }
  }

  lemma {:induction false} DrainHasNoWrites(n: nat)
    ensures WritesIn(Drain(n)) == []
  {
    if n > 0 {
      DrainHasNoWrites(n - 1);
      WritesInAppend([Yield, Receive], Drain(n - 1));
      assert [Yield, Receive][1..] == [Receive] && [Receive][1..] == [];
    }
  }

  lemma PollWrites(before: seq<Step>, n: nat, between: seq<Step>)
    requires AllWrites(before) && AllWrites(between)
    ensures WritesIn(before + [Load] + Drain(n) + between + [ReadStatus]) == before + between
  {
    hide WritesIn, Drain;
    NoWrite(Load);
    NoWrite(ReadStatus);
    DrainHasNoWrites(n);
    OnlyWrites(before);
    OnlyWrites(between);
    WritesInAppend(before, [Load]);
    WritesInAppend(before + [Load], Drain(n));
    WritesInAppend(before + [Load] + Drain(n), between);
    WritesInAppend(before + [Load] + Drain(n) + between, [ReadStatus]);
  }

  lemma NoWrite(step: Step)
    requires !IsWrite(step)
    ensures WritesIn([step]) == []
  {
    assert [step][1..] == [];
  }

  /** One pass of the loop body is a run of the step system, with any number of writes before the page load and
      between the load and the status read. */
  lemma PollRefines(c: Config, s: State, r: Reader, w: Writes) returns (steps: seq<Step>, ob: Observation)
    requires Matches(s, r) && r.outcome == Open
    requires AllWrites(w.before) && AllWrites(w.between)
    requires WriteSeqOk(c, DatabaseOf(s), w.before)
    requires WriteSeqOk(c, WriteSeq(c, DatabaseOf(s), w.before), w.between)
    ensures ob == Observation(WriteSeq(c, DatabaseOf(s), w.before).table,
                              WriteSeq(c, WriteSeq(c, DatabaseOf(s), w.before), w.between).status)
    ensures CanRun(c, s, steps) && WritesIn(steps) == w.before + w.between
    ensures var (s', r') := (RunAll(c, s, steps), PollOnce(c.audit, c.pageSize, c.grace, r, ob));
            && Matches(s', r')
            && DatabaseOf(s') == WriteSeq(c, WriteSeq(c, DatabaseOf(s), w.before), w.between)
            && s'.log == LogAfter(c, LogAfter(c, s.log, w.before), w.between)
            && s'.mark == Noted(s.mark, r, r', s'.log)
  {
    hide LoadEvents, KeysOf, Frontier, WriteSeq, WriteSeqOk, LogAfter, RunAll, CanRun, Drain, AllWrites, WritesIn;
    WritesRun(c, s, w.before);
    var s1 := RunAll(c, s, w.before);
    var s2 := Apply(c, s1, Load);
    DrainRuns(c, s2);
    var drain := Drain(|s2.phase.rest|);
    var s3 := RunAll(c, s2, drain);
    WritesRun(c, s3, w.between);
    var s4 := RunAll(c, s3, w.between);
    ob := Observation(s1.table, s4.status);
    steps := ChainFive(c, s, w.before, Load, drain, w.between, ReadStatus);
    PollWrites(w.before, |s2.phase.rest|, w.between);
  }

  // ----- The whole loop -----

  ghost predicate WritesOk(c: Config, db: Database, writes: seq<Writes>)
    decreases |writes|
  {
    writes == [] ||
    (&& AllWrites(writes[0].before) && AllWrites(writes[0].between)
     && WriteSeqOk(c, db, writes[0].before)
     && WriteSeqOk(c, WriteSeq(c, db, writes[0].before), writes[0].between)
     && WritesOk(c, WriteSeq(c, WriteSeq(c, db, writes[0].before), writes[0].between), writes[1..]))
  }

  /** What successive polls observe when the writers interleave like this. */
  ghost function Observed(c: Config, db: Database, writes: seq<Writes>): seq<Observation>
    requires WritesOk(c, db, writes)
    decreases |writes|
  {
    if writes == [] then []
    else
      var loaded := WriteSeq(c, db, writes[0].before);
      var read := WriteSeq(c, loaded, writes[0].between);
      [Observation(loaded.table, read.status)] + Observed(c, read, writes[1..])
  }

  /** All the writes, in order. */
  function Written(writes: seq<Writes>): seq<Step> {
    if writes == [] then [] else writes[0].before + writes[0].between + Written(writes[1..])
  }

  /** The events committed when the loop first counts a terminal status: those of the polls up to the one that
      counts it, its own writes included. */
  ghost function CommittedWhenCounted(c: Config, mark: Option<set<Key>>, log: set<Key>, db: Database, r: Reader,
                                      writes: seq<Writes>): Option<set<Key>>
    requires WritesOk(c, db, writes)
    decreases |writes|
  {
    if writes == [] || r.outcome != Open then mark
    else
      var loaded := WriteSeq(c, db, writes[0].before);
      var read := WriteSeq(c, loaded, writes[0].between);
      var log' := LogAfter(c, LogAfter(c, log, writes[0].before), writes[0].between);
      var r' := PollOnce(c.audit, c.pageSize, c.grace, r, Observation(loaded.table, read.status));
      CommittedWhenCounted(c, Noted(mark, r, r', log'), log', read, r', writes[1..])
  }

  /** The whole loop, under any interleaving of writers with its page loads and status reads, is a run of
      the step system: what the loop sends is what the step system's client receives. */
  lemma {:induction false} StreamRefines(c: Config, s: State, r: Reader, writes: seq<Writes>) returns (steps: seq<Step>)
    requires Matches(s, r) && WritesOk(c, DatabaseOf(s), writes)
    ensures CanRun(c, s, steps) && WritesIn(steps) <= Written(writes)
    ensures Matches(RunAll(c, s, steps),
                    Stream(c.audit, c.pageSize, c.grace, r, Observed(c, DatabaseOf(s), writes)))
    ensures RunAll(c, s, steps).mark == CommittedWhenCounted(c, s.mark, s.log, DatabaseOf(s), r, writes)
    decreases |writes|
  {
    hide PollOnce, WriteSeqOk, WriteSeq, Matches, LogAfter, WritesIn, Noted;
    var db := DatabaseOf(s);
    if writes == [] || r.outcome != Open {
      steps := [];
      NoWritesAtAll();
    } else {
      var w := writes[0];
      var first, ob := PollRefines(c, s, r, w);
      var s2 := RunAll(c, s, first);
      var r2 := PollOnce(c.audit, c.pageSize, c.grace, r, ob);
      var obs := Observed(c, db, writes);
      assert obs[0] == ob && obs[1..] == Observed(c, DatabaseOf(s2), writes[1..]);
      var others := StreamRefines(c, s2, r2, writes[1..]);
      RunAppend(c, s, first, others);
      WritesInAppend(first, others);
      steps := first + others;
    }
  }

  lemma NoWritesAtAll()
    ensures WritesIn([]) == []
  {
  }

  // ----- The guarantees, of what the loop sends -----

  /** A run goes on through any steps that can be taken from its end. */
  lemma {:induction false} Bridge(c: Config, states: seq<State>, steps: seq<Step>, more: seq<Step>)
    returns (all: seq<State>)
    requires Run(c, states, steps) && CanRun(c, states[|steps|], more)
    ensures Run(c, all, steps + more) && states <= all
    ensures all[|steps + more|] == RunAll(c, states[|steps|], more)
    decreases |more|
  {
    if more == [] {
      all := states;
      assert steps + more == steps;
    } else {
      ExtendRun(c, states, steps, more[0]);
      var next := states + [Apply(c, states[|steps|], more[0])];
      all := Bridge(c, next, steps + [more[0]], more[1..]);
      assert steps + [more[0]] + more[1..] == steps + more;
    }
  }

  /** Every commit among the steps sorts after everything committed before it. */
  ghost predicate InOrder(c: Config, log: set<Key>, steps: seq<Step>)
    decreases |steps|
  {
    steps == [] ||
    (&& (steps[0].Commit? ==> forall k, earlier :: k in KeysOf(steps[0].rows, c.audit) && earlier in log ==> KeyLt(earlier, k))
     && InOrder(c, if steps[0].Commit? then log + KeysOf(steps[0].rows, c.audit) else log, steps[1..]))
  }

  /** Only the writes matter to the log and to its order. */
  lemma {:induction false} WritesDecide(c: Config, log: set<Key>, steps: seq<Step>)
    ensures LogAfter(c, log, WritesIn(steps)) == LogAfter(c, log, steps)
    ensures InOrder(c, log, WritesIn(steps)) <==> InOrder(c, log, steps)
    decreases |steps|
  {
    hide KeysOf;
    if steps != [] {
      var log' := if steps[0].Commit? then log + KeysOf(steps[0].rows, c.audit) else log;
      WritesDecide(c, log', steps[1..]);
      var others := WritesIn(steps[1..]);
      if IsWrite(steps[0]) {
        assert WritesIn(steps) == [steps[0]] + others && ([steps[0]] + others)[1..] == others;
      } else {
        assert WritesIn(steps) == [] + others == others;
      }
    }
  }

  lemma {:induction false} InOrderPrefix(c: Config, log: set<Key>, steps: seq<Step>, more: seq<Step>)
    requires steps <= more && InOrder(c, log, more)
    ensures InOrder(c, log, steps)
    decreases |steps|
  {
    hide KeysOf;
    if steps != [] {
      assert more[0] == steps[0] && steps[1..] <= more[1..];
      InOrderPrefix(c, if steps[0].Commit? then log + KeysOf(steps[0].rows, c.audit) else log, steps[1..], more[1..]);
    }
  }

  lemma {:induction false} LogGrows(c: Config, log: set<Key>, steps: seq<Step>)
    ensures log <= LogAfter(c, log, steps)
    decreases |steps|
  {
    if steps != [] {
      LogGrows(c, if steps[0].Commit? then log + KeysOf(steps[0].rows, c.audit) else log, steps[1..]);
    }
  }

  lemma LogStepIs(c: Config, s: State, step: Step)
    requires Enabled(c, s, step)
    ensures Apply(c, s, step).log == if step.Commit? then s.log + KeysOf(step.rows, c.audit) else s.log
  {
  }

  /** In a run, the recorded log is what the steps committed, and the order of commits is theirs. */
  lemma {:induction false} RunLog(c: Config, states: seq<State>, steps: seq<Step>, i: nat)
    requires Run(c, states, steps) && i <= |steps|
    ensures LogAfter(c, states[0].log, steps) == LogAfter(c, states[i].log, steps[i..])
    ensures InOrder(c, states[0].log, steps) ==> InOrder(c, states[i].log, steps[i..])
  {
    hide KeysOf, Enabled, Apply, Init;
    if i == 0 {
      assert steps[0..] == steps;
    } else {
      RunLog(c, states, steps, i - 1);
      assert Enabled(c, states[i - 1], steps[i - 1]) && states[i] == Apply(c, states[i - 1], steps[i - 1]);
      LogStepIs(c, states[i - 1], steps[i - 1]);
      assert steps[i - 1..][1..] == steps[i..];
    }
  }

  lemma InOrderRun(c: Config, states: seq<State>, steps: seq<Step>)
    requires Run(c, states, steps) && InOrder(c, states[0].log, steps)
    ensures CommitsInOrder(c, states, steps)
  {
    hide KeysOf, Init;
    forall i | 0 <= i < |steps| && steps[i].Commit?
      ensures forall k, earlier :: k in KeysOf(steps[i].rows, c.audit) && earlier in states[i].log ==> KeyLt(earlier, k)
    {
      RunLog(c, states, steps, i);
      assert steps[i..][0] == steps[i];
    }
  }

  /** The reader with which the generator starts. */
  function Started(c: Config): Reader {
    Reader(if c.start.None? then None else Some(c.start.value.id), 0, [], Open)
  }

  /** What the generator does on a connection, as a run of the step system from the state the client connects in. */
  lemma StreamRuns(c: Config, s: State, writes: seq<Writes>) returns (states: seq<State>, steps: seq<Step>)
    requires Init(c, s) && Authorized(c, s) && WritesOk(c, DatabaseOf(s), writes)
    ensures Run(c, states, steps) && states[0] == s && WritesIn(steps) <= Written(writes)
    ensures Matches(states[|steps|],
                    Stream(c.audit, c.pageSize, c.grace, Started(c), Observed(c, DatabaseOf(s), writes)))
    ensures states[|steps|].mark == CommittedWhenCounted(c, None, s.log, DatabaseOf(s), Started(c), writes)
  {
    hide Stream, Observed, CommittedWhenCounted, WritesOk, WritesIn;
    ExtendRun(c, [s], [], Connect);
    var s1 := Apply(c, s, Connect);
    assert Matches(s1, Started(c));
    var more := StreamRefines(c, s1, Started(c), writes);
    assert [] + [Connect] == [Connect];
    states := Bridge(c, [s] + [s1], [Connect], more);
    steps := [Connect] + more;
    NoWrite(Connect);
    WritesInAppend([Connect], more);
  }

  /** Whatever the writers do around its polls, what one connection sends is strictly increasing, after the
      client's cursor, and of this audit. */
  lemma StreamSendsInOrder(c: Config, s: State, writes: seq<Writes>)
    requires Init(c, s) && Authorized(c, s) && WritesOk(c, DatabaseOf(s), writes)
    ensures var sent := Stream(c.audit, c.pageSize, c.grace, Started(c), Observed(c, DatabaseOf(s), writes)).sent;
            && Ascending(sent)
            && forall k :: k in sent ==> After(c.start, k) && k in LogAfter(c, s.log, Written(writes))
  {
    hide Stream, Observed, Init, Authorized, WritesOk, CommittedWhenCounted, LogAfter, WritesIn, Apply, Enabled;
    var states, steps := StreamRuns(c, s, writes);
    DeliveredInOrder(c, states, steps, |steps|);
    SentWasCommitted(c, states, steps, Written(writes));
  }

  lemma SentWasCommitted(c: Config, states: seq<State>, steps: seq<Step>, written: seq<Step>)
    requires Run(c, states, steps) && WritesIn(steps) <= written
    ensures forall k :: k in states[|steps|].received ==> k in LogAfter(c, states[0].log, written)
  {
    hide Init, Apply, Enabled, LogAfter;
    var s := states[|steps|];
    RunInv(c, states, steps, |steps|);
    assert forall k :: k in s.received ==> k in Pipeline(s);
    FinalLog(c, states, steps);
    WritesDecide(c, states[0].log, steps);
    LogPrefix(c, states[0].log, WritesIn(steps), written);
  }

  lemma FinalLog(c: Config, states: seq<State>, steps: seq<Step>)
    requires Run(c, states, steps)
    ensures states[|steps|].log == LogAfter(c, states[0].log, steps)
  {
    hide Init, Apply, Enabled;
    RunLog(c, states, steps, |steps|);
    assert steps[|steps|..] == [];
  }

  lemma {:induction false} LogPrefix(c: Config, log: set<Key>, steps: seq<Step>, more: seq<Step>)
    requires steps <= more
    ensures LogAfter(c, log, steps) <= LogAfter(c, log, more)
    decreases |steps|
  {
    hide KeysOf;
    if steps != [] {
      assert more[0] == steps[0] && steps[1..] <= more[1..];
      LogPrefix(c, if steps[0].Commit? then log + KeysOf(steps[0].rows, c.audit) else log, steps[1..], more[1..]);
    } else {
      LogGrows(c, log, more);
    }
  }

  /** With in-order writes, what the loop sends is a prefix of the ordered log after the client's cursor. */
  lemma StreamIsExactlyOnce(c: Config, s: State, writes: seq<Writes>)
    requires Init(c, s) && Authorized(c, s) && WritesOk(c, DatabaseOf(s), writes)
    requires InOrder(c, s.log, Written(writes))
    ensures Stream(c.audit, c.pageSize, c.grace, Started(c), Observed(c, DatabaseOf(s), writes)).sent
         <= Ordered(set k | k in LogAfter(c, s.log, Written(writes)) && After(c.start, k))
  {
    hide Stream, Observed, Init, Authorized, WritesOk, CommittedWhenCounted, LogAfter, WritesIn, Apply, Enabled, InOrder, Ordered;
    var states, steps := StreamRuns(c, s, writes);
    InOrderPrefix(c, s.log, WritesIn(steps), Written(writes));
    WritesDecide(c, s.log, steps);
    InOrderRun(c, states, steps);
    FinalLog(c, states, steps);
    LogPrefix(c, s.log, WritesIn(steps), Written(writes));
    LaterWrites(c, s.log, WritesIn(steps), Written(writes));
    ExactlyOnce(c, states, steps, |steps|);
    PrefixOfMore(c.start, states[|steps|].received, states[|steps|].log, LogAfter(c, s.log, Written(writes)));
  }

  /** With in-order writes, what is committed later sorts later. */
  lemma {:induction false} LaterWrites(c: Config, log: set<Key>, steps: seq<Step>, more: seq<Step>)
    requires steps <= more && InOrder(c, log, more)
    ensures forall e, k :: e in LogAfter(c, log, steps) && k in LogAfter(c, log, more) && k !in LogAfter(c, log, steps) ==>
              KeyLt(e, k)
    decreases |more|
  {
    hide KeysOf;
    if more != [] {
      var log' := if more[0].Commit? then log + KeysOf(more[0].rows, c.audit) else log;
      if steps == [] {
        LaterWrites(c, log', [], more[1..]);
      } else {
        assert more[0] == steps[0] && steps[1..] <= more[1..];
        LaterWrites(c, log', steps[1..], more[1..]);
      }
    }
  }

  /** A prefix of the ordered log stays one when only later keys are added. */
  lemma PrefixOfMore(start: Option<Key>, got: seq<Key>, log: set<Key>, more: set<Key>)
    requires got <= Ordered(set k | k in log && After(start, k))
    requires log <= more && forall e, k :: e in log && k in more && k !in log ==> KeyLt(e, k)
    ensures got <= Ordered(set k | k in more && After(start, k))
  {
    hide Ordered;
    var first := set k | k in log && After(start, k);
    OrderedSpec(first);
    PrefixSpec(Ordered(first), |got|);
    assert Ordered(first)[..|got|] == got;
    assert forall k :: k in got ==> k in Ordered(first);
    var wanted := set k | k in more && After(start, k);
    forall k | k in wanted && k !in got ensures got == [] || KeyLt(got[|got| - 1], k) {
      if got != [] {
        assert got[|got| - 1] in got && got[|got| - 1] in first;
        if k in first { assert k in Ordered(first); }
      }
    }
    GapFreePrefix(got, wanted);
  }

  /** With in-order writes and a grace of at least two polls, a terminal close comes after everything committed
      when the terminal status was first counted has been sent. */
  lemma StreamCloseIsLossless(c: Config, s: State, writes: seq<Writes>)
    requires Init(c, s) && Authorized(c, s) && WritesOk(c, DatabaseOf(s), writes)
    requires InOrder(c, s.log, Written(writes)) && c.grace >= 2
    ensures var end := Stream(c.audit, c.pageSize, c.grace, Started(c), Observed(c, DatabaseOf(s), writes));
            var counted := CommittedWhenCounted(c, None, s.log, DatabaseOf(s), Started(c), writes);
            end.outcome == TerminalClose ==>
              counted.Some? && forall k :: k in counted.value && After(c.start, k) ==> k in end.sent
  {
    hide Stream, Observed, Init, Authorized, WritesOk, CommittedWhenCounted, LogAfter, WritesIn, Apply, Enabled, InOrder, Inv;
    var states, steps := StreamRuns(c, s, writes);
    InOrderPrefix(c, s.log, WritesIn(steps), Written(writes));
    WritesDecide(c, s.log, steps);
    InOrderRun(c, states, steps);
    InOrderNeverBehind(c, states, steps, |steps|);
    GraceTwoIsLossless(c);
    assert LosslessEnd(c, states[|steps|]);
    assert states[|steps|].received + [] == states[|steps|].received;
  }
}
