/** What the audit event stream guarantees over every interleaving, and exactly when. */
module EventGuarantees {
  import opened Options
  import opened EventLog
  import opened EventStream
  import opened EventDelivery

  // ----- Safety of every run -----

  /** The history field `log` is the set of events of this audit that some earlier table held. */
  lemma {:induction false} LogIsHistory(c: Config, states: seq<State>, steps: seq<Step>, i: nat)
    requires Run(c, states, steps) && i < |states|
    ensures forall k :: k in states[i].log <==> exists j :: 0 <= j <= i && k in KeysOf(states[j].table, c.audit)
  {
    if i != 0 {
      LogIsHistory(c, states, steps, i - 1);
      assert Enabled(c, states[i - 1], steps[i - 1]);
      LogStep(c, states, steps, i - 1);
    }
  }

  lemma LogStep(c: Config, states: seq<State>, steps: seq<Step>, i: nat)
    requires Run(c, states, steps) && i < |steps|
    ensures states[i + 1].log == states[i].log + KeysOf(states[i + 1].table, c.audit)
  {
    RunInv(c, states, steps, i);
    RunInv(c, states, steps, i + 1);
    var s, s' := states[i], states[i + 1];
    assert Enabled(c, s, steps[i]) && s' == Apply(c, s, steps[i]);
    match steps[i]
    case Commit(rows, becomes) => KeysOfUnion(s.table, rows, c.audit);
    case _ =>
  }

  /** Deliveries are strictly increasing, come after the initial cursor, and are events this audit committed. */
  lemma DeliveredInOrder(c: Config, states: seq<State>, steps: seq<Step>, i: nat)
    requires Run(c, states, steps) && i < |states|
    ensures Ascending(states[i].received)
    ensures forall k :: k in states[i].received ==>
              After(c.start, k) && exists j :: 0 <= j <= i && k in KeysOf(states[j].table, c.audit)
  {
    RunInv(c, states, steps, i);
    LogIsHistory(c, states, steps, i);
    var s := states[i];
    assert Pipeline(s) == s.received + (s.wire + Rest(s.phase));
    assert Pipeline(s)[..|s.received|] == s.received;
    PrefixSpec(Pipeline(s), |s.received|);
    assert forall k :: k in s.received ==> k in Pipeline(s);
  }

  // ----- Exactly once, and exactly when not -----

  /** The committed events from the initial cursor up to the last delivered one. */
  function Segment(c: Config, s: State): set<Key> {
    set k | k in s.log && After(c.start, k) && !After(LastOr(s.received, c.start), k)
  }

  /** Events committed behind what the client already holds. */
  function Skipped(c: Config, s: State): set<Key> {
    set k | k in s.behind && !After(LastOr(s.received, c.start), k)
  }

  lemma ReceivedPlusSkipped(c: Config, s: State)
    requires Inv(c, s)
    ensures forall k :: k in Segment(c, s) <==> k in s.received || k in Skipped(c, s)
    ensures forall k :: k in Skipped(c, s) ==> k !in s.received
    ensures Ascending(s.received)
  {
    var all := Pipeline(s);
    assert all == s.received + (s.wire + Rest(s.phase));
    assert all[..|s.received|] == s.received;
    PrefixSpec(all, |s.received|);
    forall k ensures k in Segment(c, s) <==> k in s.received || k in Skipped(c, s) {
      if s.received != [] {
        var last := s.received[|s.received| - 1];
        assert all[|s.received| - 1] == last;
        assert all[|all| - 1] == last || KeyLt(last, all[|all| - 1]);
        assert k in s.received ==> k in all;
      }
    }
    assert forall k :: k in s.received ==> k in all;
  }

  /** The client holds the gap-free, duplicate-free run of the log between its cursors if and only if
      nothing was committed behind an event it had already read. */
  lemma ExactlyOnceIff(c: Config, states: seq<State>, steps: seq<Step>, i: nat)
    requires Run(c, states, steps) && i < |states|
    ensures states[i].received == Ordered(Segment(c, states[i])) <==> Skipped(c, states[i]) == {}
  {
    var s := states[i];
    RunInv(c, states, steps, i);
    ReceivedPlusSkipped(c, s);
    OrderedSpec(Segment(c, s));
    if Skipped(c, s) == {} {
      AscendingUnique(s.received, Ordered(Segment(c, s)));
    } else {
      var k :| k in Skipped(c, s);
      assert k in Segment(c, s) && k !in s.received;
    }
  }

  /** Every commit's events sort after everything the audit has committed so far. */
  ghost predicate CommitsInOrder(c: Config, states: seq<State>, steps: seq<Step>)
    requires Run(c, states, steps)
  {
    forall i :: 0 <= i < |steps| && steps[i].Commit? ==>
      forall k, earlier :: k in KeysOf(steps[i].rows, c.audit) && earlier in states[i].log ==> KeyLt(earlier, k)
  }

  lemma InOrderStep(c: Config, s: State, step: Step)
    requires PipelineInv(c, s) && TableInv(c, s) && s.behind == {} && Enabled(c, s, step)
    requires step.Commit? ==>
               forall k, earlier :: k in KeysOf(step.rows, c.audit) && earlier in s.log ==> KeyLt(earlier, k)
    ensures Apply(c, s, step).behind == {}
  {
  }

  lemma {:induction false} InOrderNeverBehind(c: Config, states: seq<State>, steps: seq<Step>, i: nat)
    requires Run(c, states, steps) && CommitsInOrder(c, states, steps) && i < |states|
    ensures states[i].behind == {}
  {
    hide Apply, Enabled, KeysOf, PipelineInv, CoverageInv, ConnectionInv, CloseInv, TableInv;
    if i != 0 {
      InOrderNeverBehind(c, states, steps, i - 1);
      RunInv(c, states, steps, i - 1);
      assert Enabled(c, states[i - 1], steps[i - 1]);
      InOrderStep(c, states[i - 1], steps[i - 1]);
    }
  }

  /** An ascending list whose elements are all of `wanted` up to its last is a prefix of `wanted` in order. */
  lemma GapFreePrefix(got: seq<Key>, wanted: set<Key>)
    requires Ascending(got)
    requires forall k :: k in got ==> k in wanted
    requires forall k :: k in wanted && k !in got ==> got == [] || KeyLt(got[|got| - 1], k)
    ensures got <= Ordered(wanted)
  {
    var later := set k | k in wanted && k !in got;
    OrderedSpec(wanted);
    OrderedSpec(later);
    if got != [] {
      AscendingJoin(got, Ordered(later));
    } else {
      assert got + Ordered(later) == Ordered(later);
    }
    assert forall k :: k in got + Ordered(later) <==> k in got || k in Ordered(later);
    AscendingUnique(got + Ordered(later), Ordered(wanted));
  }

  /** Exactly-once delivery: with in-order commits, whatever the page size and however often the client
      drops and resumes, it holds the log after its initial cursor, gap-free, up to where it has read. */
  lemma ExactlyOnce(c: Config, states: seq<State>, steps: seq<Step>, i: nat)
    requires Run(c, states, steps) && CommitsInOrder(c, states, steps) && i < |states|
    ensures states[i].received <= Ordered(set k | k in states[i].log && After(c.start, k))
  {
    hide Ordered, Pipeline;
    var s := states[i];
    var wanted := set k | k in s.log && After(c.start, k);
    RunInv(c, states, steps, i);
    InOrderNeverBehind(c, states, steps, i);
    ReceivedPlusSkipped(c, s);
    forall k | k in wanted && k !in s.received ensures s.received == [] || KeyLt(s.received[|s.received| - 1], k) {
      assert k !in Segment(c, s);
    }
    forall k | k in s.received ensures k in wanted { assert k in Segment(c, s); }
    GapFreePrefix(s.received, wanted);
  }

  lemma SkippedStep(c: Config, s: State, step: Step, k: Key)
    requires Inv(c, s) && Enabled(c, s, step) && k in Skipped(c, s)
    ensures k in Skipped(c, Apply(c, s, step))
  {
    hide KeysOf, LoadEvents, Decide, CoverageInv, ConnectionInv, CloseInv, TableInv;
    if step.Receive? {
      var all := Pipeline(s);
      assert all == s.received + (s.wire + Rest(s.phase));
      assert s.received != [] ==> KeyLt(all[|s.received| - 1], all[|s.received|]);
      assert all[|s.received|] in all;
    }
  }

  /** A skipped event stays skipped: no later page, reconnect or resume delivers it. */
  lemma {:induction false} SkippedForever(c: Config, states: seq<State>, steps: seq<Step>, i: nat, j: nat, k: Key)
    requires Run(c, states, steps) && i <= j < |states|
    requires k in Skipped(c, states[i])
    ensures k in Skipped(c, states[j]) && k !in states[j].received
    decreases j
  {
    hide Apply, Enabled, Inv, Skipped;
    RunInv(c, states, steps, j);
    if i != j {
      SkippedForever(c, states, steps, i, j - 1, k);
      RunInv(c, states, steps, j - 1);
      assert Enabled(c, states[j - 1], steps[j - 1]);
      SkippedStep(c, states[j - 1], steps[j - 1], k);
    }
    ReceivedPlusSkipped(c, states[j]);
  }

  // ----- Losing an event on the way, concretely -----

  lemma ExtendRun(c: Config, states: seq<State>, steps: seq<Step>, step: Step)
    requires Run(c, states, steps) && Enabled(c, states[|steps|], step)
    ensures Run(c, states + [Apply(c, states[|steps|], step)], steps + [step])
  {
    hide Init, Enabled, Apply;
  }

  /** A run in which the only event so far, with key (5, 1), has been delivered. */
  lemma OneDelivered(audit: Id, pageSize: nat, grace: int) returns (states: seq<State>, steps: seq<Step>)
    requires pageSize > 0
    ensures Run(Config(audit, None, pageSize, grace), states, steps)
    ensures states[|steps|] == State(map[1 := Row(audit, 5)], Some(Running), Paged([], pageSize == 1), Some(1), 0,
                                     [], [Key(5, 1)], {Key(5, 1)}, {}, None)
  {
    var c := Config(audit, None, pageSize, grace);
    var table := map[1 := Row(audit, 5)];
    SingleKey(1, Row(audit, 5));
    var s := State(table, Some(Running), Off, None, 0, [], [], {Key(5, 1)}, {}, None);
    states, steps := [s], [];
    ExtendRun(c, states, steps, Connect);
    s := s.(phase := Ready);
    states, steps := states + [s], steps + [Connect];
    OrderedSingle(Key(5, 1));
    assert LoadEvents(table, audit, None, Some(pageSize)) == [Key(5, 1)];
    ExtendRun(c, states, steps, Load);
    s := s.(phase := Paged([Key(5, 1)], pageSize == 1));
    states, steps := states + [s], steps + [Load];
    ExtendRun(c, states, steps, Yield);
    s := s.(phase := Paged([], pageSize == 1), lastId := Some(1), wire := [Key(5, 1)]);
    states, steps := states + [s], steps + [Yield];
    ExtendRun(c, states, steps, Receive);
    s := s.(wire := [], received := [Key(5, 1)]);
    states, steps := states + [s], steps + [Receive];
  }

  /** Two commits of in-flight transactions may land out of key order: for every audit, page size and
      grace there is a run in which a connected client has moved past an event it never receives. */
  lemma LateCommitIsLost(audit: Id, pageSize: nat, grace: int) returns (states: seq<State>, steps: seq<Step>)
    requires pageSize > 0
    ensures var c := Config(audit, None, pageSize, grace);
            && Run(c, states, steps)
            && Skipped(c, states[|steps|]) == {Key(3, 2)}
            && states[|steps|].received == [Key(5, 1)]
            && states[|steps|].log == {Key(5, 1), Key(3, 2)}
  {
    var c := Config(audit, None, pageSize, grace);
    states, steps := OneDelivered(audit, pageSize, grace);
    SingleKey(2, Row(audit, 3));
    var late := Commit(map[2 := Row(audit, 3)], Some(Running));
    ExtendRun(c, states, steps, late);
    states, steps := states + [Apply(c, states[|steps|], late)], steps + [late];
  }

  lemma SingleKey(id: Id, row: Row)
    ensures KeysOf(map[id := row], row.audit) == {Key(row.at, id)}
  {
    assert Key(row.at, id) in KeysOf(map[id := row], row.audit) by { assert id in map[id := row]; }
  }

  lemma OrderedSingle(k: Key)
    ensures Ordered({k}) == [k]
  {
  }

  // ----- Closing without loss -----

  /** No terminal close leaves behind an event that was already committed when a terminal status was
      first counted (on a page that was not full), save one committed behind the client's reading. */
  ghost predicate LosslessEnd(c: Config, s: State) {
    s.phase == Ended(TerminalClose) ==>
      && s.mark.Some?
      && forall k :: k in s.mark.value && After(c.start, k) ==> k in s.received + s.wire || k in s.behind
  }

  ghost predicate Lossless(c: Config) {
    forall states: seq<State>, steps: seq<Step>, i: nat ::
      Run(c, states, steps) && i < |states| ==> LosslessEnd(c, states[i])
  }

  lemma GraceTwoIsLossless(c: Config)
    requires c.grace >= 2
    ensures Lossless(c)
  {
    forall states: seq<State>, steps: seq<Step>, i: nat | Run(c, states, steps) && i < |states|
      ensures LosslessEnd(c, states[i])
    {
      RunInv(c, states, steps, i);
      if states[i].phase.Ended? { assert Pipeline(states[i]) == states[i].received + states[i].wire; }
    }
  }

  /** A client connected to an audit with nothing to send yet, its first, empty page loaded. */
  lemma EmptyPageLoaded(c: Config, table: Table, s0: State)
    requires c.pageSize > 0 && Init(c, s0) && s0.status == Some(Reporting) && s0.table == table
    requires c.start.None? ==> KeysOf(table, c.audit) == {}
    requires c.start.Some? ==>
               KeysOf(table, c.audit) == {c.start.value} && table == map[c.start.value.id := Row(c.audit, c.start.value.at)]
    ensures Enabled(c, s0, Connect)
    ensures Enabled(c, Apply(c, s0, Connect), Load)
    ensures Apply(c, Apply(c, s0, Connect), Load) == s0.(phase := Paged([], false), lastId := ClientCursor(c, s0))
  {
  }

  /** With a grace of one poll, an event committed together with the terminal status between the page
      load and the status read is never sent. */
  lemma GraceOneLoses(c: Config) returns (states: seq<State>, steps: seq<Step>)
    requires c.grace <= 1 && c.pageSize > 0
    ensures Run(c, states, steps) && |states| == 5
    ensures states[4].phase == Ended(TerminalClose) && !LosslessEnd(c, states[4])
  {
    var table := if c.start.None? then map[] else map[c.start.value.id := Row(c.audit, c.start.value.at)];
    var k := if c.start.None? then Key(0, 0) else Key(c.start.value.at + 1, c.start.value.id + 1);
    if c.start.Some? { SingleKey(c.start.value.id, Row(c.audit, c.start.value.at)); }
    SingleKey(k.id, Row(c.audit, k.at));
    var s0 := State(table, Some(Reporting), Off, None, 0, [], [], KeysOf(table, c.audit), {}, None);
    EmptyPageLoaded(c, table, s0);
    hide LoadEvents, KeysOf, Authorized;
    steps := [Connect, Load, Commit(map[k.id := Row(c.audit, k.at)], Some(Completed)), ReadStatus];
    var s1 := Apply(c, s0, steps[0]);
    var s2 := Apply(c, s1, steps[1]);
    assert Pipeline(s2) == [];
    var s3 := Apply(c, s2, steps[2]);
    var s4 := Apply(c, s3, steps[3]);
    states := [s0, s1, s2, s3, s4];
    assert k in s4.mark.value && After(c.start, k) && k !in s4.received + s4.wire && k !in s4.behind;
  }

  /** A zero page size never closes: every page counts as full. */
  lemma {:induction false} ZeroPageNeverCloses(c: Config, states: seq<State>, steps: seq<Step>, i: nat)
    requires c.pageSize == 0 && Run(c, states, steps) && i < |states|
    ensures states[i].phase != Ended(TerminalClose)
    ensures states[i].phase.Paged? ==> states[i].phase.full
  {
    if i != 0 {
      ZeroPageNeverCloses(c, states, steps, i - 1);
      var s, step := states[i - 1], steps[i - 1];
      assert Enabled(c, s, step) && states[i] == Apply(c, s, step);
      if step.Load? { PageSpec(s.table, c.audit, s.lastId, 0); }
    }
  }

  /** The terminal close is lossless exactly when the grace is at least two polls. */
  lemma LosslessIff(c: Config)
    ensures Lossless(c) <==> c.grace >= 2 || c.pageSize == 0
  {
    if c.grace >= 2 {
      GraceTwoIsLossless(c);
    } else if c.pageSize == 0 {
      forall states: seq<State>, steps: seq<Step>, i: nat | Run(c, states, steps) && i < |states|
        ensures LosslessEnd(c, states[i])
      {
        ZeroPageNeverCloses(c, states, steps, i);
      }
    } else {
      var states, steps := GraceOneLoses(c);
      assert !LosslessEnd(c, states[4]);
    }
  }
}
