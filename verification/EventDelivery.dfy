/** The audit event stream as a step system: writers committing, one client that connects, drops and
    resumes, and the server's load / yield / status steps in any interleaving. */
module EventDelivery {
  import opened Options
  import opened EventLog
  import opened EventStream

  /** What never changes in a run: the audit, the client's initial cursor, and the two knobs. */
  datatype Config = Config(audit: Id, start: Option<Key>, pageSize: nat, grace: int)

  datatype Phase =
    | Off                                     // no connection
    | Ready                                   // about to load a page
    | Paged(rest: seq<Key>, full: bool)       // page in memory, frames still to yield
    | Ended(outcome: Outcome)                 // generator finished, frames may still be in flight

  /** The last three fields are history: every key of the audit ever committed, the keys committed
      behind the furthest key read, and the keys committed when a terminal status was first counted. */
  datatype State = State(
    table: Table, status: Option<Status>,
    phase: Phase, lastId: Option<Id>, terminalPolls: nat,
    wire: seq<Key>, received: seq<Key>,
    log: set<Key>, behind: set<Key>, mark: Option<set<Key>>)

  datatype Step =
    | Commit(rows: Table, becomes: Option<Status>)
    | DeleteAudit
    | Connect
    | Load
    | Yield
    | Receive
    | ReadStatus
    | Disconnect

  function Rest(phase: Phase): seq<Key> {
    if phase.Paged? then phase.rest else []
  }

  /** Everything delivered, in flight or loaded, in order. */
  function Pipeline(s: State): seq<Key> {
    s.received + s.wire + Rest(s.phase)
  }

  function Frontier(c: Config, s: State): Option<Key> {
    LastOr(Pipeline(s), c.start)
  }

  /** The Last-Event-ID a client sends: its last delivered event, else the cursor it began with. */
  function ClientCursor(c: Config, s: State): Option<Id> {
    match LastOr(s.received, c.start)
    case None => None
    case Some(k) => Some(k.id)
  }

  /** The endpoint's guards: the audit exists and the cursor names one of its events. */
  predicate Authorized(c: Config, s: State) {
    s.status.Some? && CursorAuthorized(s.table, c.audit, ClientCursor(c, s))
  }

  /** The part of the state writers own. */
  datatype Database = Database(table: Table, status: Option<Status>)

  predicate IsWrite(step: Step) { step.Commit? || step.DeleteAudit? }

  predicate WriteOk(c: Config, db: Database, step: Step)
    requires IsWrite(step)
  {
    match step
    case Commit(rows, becomes) =>
      // Primary keys are fresh, and an event needs its audit.
      && rows.Keys !! db.table.Keys
      && becomes.Some? == db.status.Some?
      && (db.status.None? ==> KeysOf(rows, c.audit) == {})
    case DeleteAudit => db.status.Some?
  }

  function Write(c: Config, db: Database, step: Step): Database
    requires IsWrite(step)
  {
    match step
    case Commit(rows, becomes) => Database(db.table + rows, becomes)
    case DeleteAudit =>
      Database(map id | id in db.table && db.table[id].audit != c.audit :: db.table[id], None)
  }

  predicate Enabled(c: Config, s: State, step: Step) {
    match step
    case Commit(_, _) => WriteOk(c, Database(s.table, s.status), step)
    case DeleteAudit => WriteOk(c, Database(s.table, s.status), step)
    case Connect => s.phase.Off?
    case Load => s.phase.Ready?
    case Yield => s.phase.Paged? && s.phase.rest != []
    case Receive => s.wire != []
    case ReadStatus => s.phase.Paged? && s.phase.rest == []
    case Disconnect => !s.phase.Off?
  }

  function Apply(c: Config, s: State, step: Step): State
    requires Enabled(c, s, step)
  {
    match step
    case Commit(rows, becomes) =>
      var keys := KeysOf(rows, c.audit);
      var db := Write(c, Database(s.table, s.status), step);
      s.(table := db.table, status := db.status, log := s.log + keys,
         behind := s.behind + set k | k in keys && After(c.start, k) && !After(Frontier(c, s), k))
    case DeleteAudit =>
      var db := Write(c, Database(s.table, s.status), step);
      s.(table := db.table, status := db.status)
    case Connect =>
      if Authorized(c, s) then
        s.(phase := Ready, lastId := ClientCursor(c, s), terminalPolls := 0, mark := None)
      else s  // 404
    case Load =>
      var page := LoadEvents(s.table, c.audit, s.lastId, Some(c.pageSize));
      s.(phase := Paged(page, |page| == c.pageSize))
    case Yield =>
      var k := s.phase.rest[0];
      s.(phase := Paged(s.phase.rest[1..], s.phase.full), lastId := Some(k.id), wire := s.wire + [k])
    case Receive =>
      s.(wire := s.wire[1..], received := s.received + [s.wire[0]])
    case ReadStatus =>
      var (polls, outcome) := Decide(s.phase.full, s.status, s.terminalPolls, c.grace);
      s.(phase := if outcome == Open then Ready else Ended(outcome),
         terminalPolls := polls,
         mark := if s.terminalPolls == 0 && polls == 1 then Some(s.log) else s.mark)
    case Disconnect =>
      // Frames in flight and the page in memory are lost with the connection.
      s.(phase := Off, wire := [], terminalPolls := 0, mark := None,
         behind := set k | k in s.behind && !After(LastOr(s.received, c.start), k))
  }

  /** A client that has received nothing yet and holds no cursor, or an authorized one. */
  predicate Init(c: Config, s: State) {
    && s.phase.Off? && s.terminalPolls == 0 && s.wire == [] && s.received == []
    && s.log == KeysOf(s.table, c.audit) && s.behind == {} && s.mark.None?
    && (s.status.None? ==> s.log == {})
    && (c.start.Some? ==> c.start.value in s.log)
  }

  ghost predicate Run(c: Config, states: seq<State>, steps: seq<Step>) {
    && |states| == |steps| + 1
    && Init(c, states[0])
    && forall i :: 0 <= i < |steps| ==> Enabled(c, states[i], steps[i]) && states[i + 1] == Apply(c, states[i], steps[i])
  }

  // ----- The invariant of every interleaving -----

  predicate Connected(s: State) { s.phase.Ready? || s.phase.Paged? }

  ghost predicate PipelineInv(c: Config, s: State) {
    && Ascending(Pipeline(s))
    && forall k :: k in Pipeline(s) ==> After(c.start, k) && k in s.log
  }

  ghost predicate TableInv(c: Config, s: State) {
    && (s.status.Some? ==> s.log == KeysOf(s.table, c.audit))
    && (s.status.None? ==> KeysOf(s.table, c.audit) == {})
    && (c.start.Some? ==> c.start.value in s.log)
  }

  ghost predicate ConnectionInv(c: Config, s: State) {
    && (s.phase.Off? ==> s.wire == [])
    && (Connected(s) ==> s.lastId == LastIdOr(s.received + s.wire, if c.start.None? then None else Some(c.start.value.id)))
  }

  /** The committed events between the initial cursor and the frontier are exactly those in the
      pipeline and those that were committed behind it. */
  ghost predicate CoverageInv(c: Config, s: State) {
    && (forall k :: k in s.log && After(c.start, k) ==>
         (k in Pipeline(s) || k in s.behind <==> !After(Frontier(c, s), k)))
    && (forall k :: k in s.behind ==> k in s.log && After(c.start, k) && k !in Pipeline(s))
  }

  /** Every marked event the client still wants is in the pipeline, or was committed behind it. */
  ghost predicate Marked(c: Config, s: State) {
    s.mark.Some? ==> forall k :: k in s.mark.value && After(c.start, k) ==> k in Pipeline(s) || k in s.behind
  }

  ghost predicate CloseInv(c: Config, s: State) {
    && (s.mark.Some? <==> s.terminalPolls >= 1)
    && (s.mark.Some? ==> s.mark.value <= s.log)
    && (s.phase.Off? ==> s.mark.None?)
    && (s.phase.Paged? && !s.phase.full && s.status.Some? ==> Marked(c, s))
    && (s.terminalPolls >= 2 ==> Marked(c, s))
    && (s.phase.Ended? && s.phase.outcome == TerminalClose ==> s.terminalPolls >= 1 && s.terminalPolls >= c.grace)
  }

  ghost predicate Inv(c: Config, s: State) {
    PipelineInv(c, s) && TableInv(c, s) && ConnectionInv(c, s) && CoverageInv(c, s) && CloseInv(c, s)
  }

  lemma InitInv(c: Config, s: State)
    requires Init(c, s)
    ensures Inv(c, s)
  {
    assert Pipeline(s) == [];
  }

  lemma CommitInv(c: Config, s: State, rows: Table, becomes: Option<Status>)
    requires Inv(c, s) && Enabled(c, s, Commit(rows, becomes))
    ensures Inv(c, Apply(c, s, Commit(rows, becomes)))
  {
    var s' := Apply(c, s, Commit(rows, becomes));
    assert Pipeline(s') == Pipeline(s);
    var keys := KeysOf(rows, c.audit);
    KeysOfUnion(s.table, rows, c.audit);
    forall k | k in keys ensures k !in s.log || s.status.None? {
      if s.status.Some? { assert k.id in rows && k.id !in s.table; }
    }
    forall k | k in keys ensures k !in Pipeline(s) {
      assert s.status.Some?;
    }
  }

  lemma KeysOfUnion(a: Table, b: Table, audit: Id)
    requires a.Keys !! b.Keys
    ensures KeysOf(a + b, audit) == KeysOf(a, audit) + KeysOf(b, audit)
  {
    var u := a + b;
    forall k ensures k in KeysOf(u, audit) <==> k in KeysOf(a, audit) + KeysOf(b, audit) {
      if k in KeysOf(u, audit) { assert k.id in u && u[k.id].audit == audit; }
      if k in KeysOf(a, audit) { assert k.id in a && k.id in u && k.id !in b; }
      if k in KeysOf(b, audit) { assert k.id in b && k.id in u; }
    }
  }

  lemma DeleteInv(c: Config, s: State)
    requires Inv(c, s) && Enabled(c, s, DeleteAudit)
    ensures Inv(c, Apply(c, s, DeleteAudit))
  {
    var s' := Apply(c, s, DeleteAudit);
    assert Pipeline(s') == Pipeline(s);
  }

  lemma ConnectInv(c: Config, s: State)
    requires Inv(c, s) && Enabled(c, s, Connect)
    ensures Inv(c, Apply(c, s, Connect))
  {
    var s' := Apply(c, s, Connect);
    assert Pipeline(s') == Pipeline(s);
    assert s.received + s.wire == s.received;
  }

  lemma DisconnectInv(c: Config, s: State)
    requires Inv(c, s) && Enabled(c, s, Disconnect)
    ensures Inv(c, Apply(c, s, Disconnect))
  {
    var s' := Apply(c, s, Disconnect);
    var tail := s.wire + Rest(s.phase);
    assert Pipeline(s) == s.received + tail;
    assert Pipeline(s') == s.received;
    PrefixSpec(Pipeline(s), |s.received|);
    assert Pipeline(s)[..|s.received|] == s.received;
    forall k | k in s.received ensures After(c.start, k) && k in s.log { assert k in Pipeline(s); }
    forall k | k in s.log && After(c.start, k) ensures k in s.received || k in s'.behind <==> !After(Frontier(c, s'), k) {
      if s.received == [] {
        assert k !in s'.behind;
      } else {
        assert Frontier(c, s').value == Pipeline(s)[|s.received| - 1];
        assert Pipeline(s)[|Pipeline(s)| - 1] == Frontier(c, s').value
            || KeyLt(Frontier(c, s').value, Pipeline(s)[|Pipeline(s)| - 1]);
      }
    }
  }

  lemma YieldInv(c: Config, s: State)
    requires Inv(c, s) && Enabled(c, s, Yield)
    ensures Inv(c, Apply(c, s, Yield))
  {
    var s' := Apply(c, s, Yield);
    assert s'.received + s'.wire == s.received + s.wire + [s.phase.rest[0]];
    assert Pipeline(s') == Pipeline(s);
  }

  lemma ReceiveInv(c: Config, s: State)
    requires Inv(c, s) && Enabled(c, s, Receive)
    ensures Inv(c, Apply(c, s, Receive))
  {
    var s' := Apply(c, s, Receive);
    assert s'.received + s'.wire == s.received + s.wire;
    assert Pipeline(s') == Pipeline(s);
  }

  lemma ReadStatusInv(c: Config, s: State)
    requires Inv(c, s) && Enabled(c, s, ReadStatus)
    ensures Inv(c, Apply(c, s, ReadStatus))
  {
    var s' := Apply(c, s, ReadStatus);
    assert Pipeline(s') == Pipeline(s);
  }

  /** The server's cursor names the last key it read in this connection, so the next page holds the
      events after that key. */
  lemma LoadSource(c: Config, s: State)
    requires PipelineInv(c, s) && TableInv(c, s) && ConnectionInv(c, s) && s.phase.Ready?
    ensures Pipeline(s) == s.received + s.wire
    ensures s.status.Some? ==>
              forall k :: k in Remaining(s.table, c.audit, s.lastId) <==> k in s.log && After(Frontier(c, s), k)
    ensures s.status.None? ==> Remaining(s.table, c.audit, s.lastId) == {}
  {
    assert Pipeline(s) == s.received + s.wire;
    var frontier := Frontier(c, s);
    if s.status.Some? && frontier.Some? {
      assert frontier.value in KeysOf(s.table, c.audit);
      assert s.lastId == Some(frontier.value.id);
      assert s.table[frontier.value.id].at == frontier.value.at;
    }
  }

  /** What a loaded page is, in terms of the log and the frontier it continues from. */
  ghost predicate PageFits(c: Config, s: State, page: seq<Key>) {
    && Ascending(page)
    && (s.status.None? ==> page == [])
    && (forall k :: k in page ==> k in s.log && After(Frontier(c, s), k))
    && (s.status.Some? ==> forall k :: k in s.log && After(Frontier(c, s), k) ==>
          (k in page <==> page != [] && !KeyLt(page[|page| - 1], k)))
    && (s.status.Some? && |page| != c.pageSize ==> forall k :: k in s.log && After(Frontier(c, s), k) ==> k in page)
  }

  lemma LoadedPageFits(c: Config, s: State)
    requires PipelineInv(c, s) && TableInv(c, s) && ConnectionInv(c, s) && s.phase.Ready?
    ensures PageFits(c, s, LoadEvents(s.table, c.audit, s.lastId, Some(c.pageSize)))
  {
    hide LoadEvents, Remaining, KeysOf, PipelineInv, TableInv, ConnectionInv, Frontier;
    LoadSource(c, s);
    PageSpec(s.table, c.audit, s.lastId, c.pageSize);
  }

  lemma LoadCoverage(c: Config, s: State, s': State, page: seq<Key>)
    requires CoverageInv(c, s) && PageFits(c, s, page)
    requires Pipeline(s') == Pipeline(s) + page && s'.log == s.log && s'.behind == s.behind
    requires forall k :: k in page ==> After(c.start, k)
    ensures CoverageInv(c, s')
  {
    hide Pipeline;
    assert page != [] ==> Frontier(c, s') == Some(page[|page| - 1]);
    assert page == [] ==> Frontier(c, s') == Frontier(c, s);
    assert page != [] ==> page[|page| - 1] in page;
  }

  lemma LoadClose(c: Config, s: State, s': State, page: seq<Key>)
    requires CoverageInv(c, s) && CloseInv(c, s) && PageFits(c, s, page) && s.phase.Ready?
    requires s' == s.(phase := Paged(page, |page| == c.pageSize)) && Pipeline(s') == Pipeline(s) + page
    ensures CloseInv(c, s')
  {
    hide Pipeline, Frontier;
  }

  lemma LoadInv(c: Config, s: State)
    requires Inv(c, s) && Enabled(c, s, Load)
    ensures Inv(c, Apply(c, s, Load))
  {
    hide LoadEvents, CoverageInv, CloseInv, KeysOf;
    var s' := Apply(c, s, Load);
    var page := s'.phase.rest;
    LoadedPageFits(c, s);
    LoadSource(c, s);
    assert Pipeline(s') == Pipeline(s) + page;
    LoadPipeline(c, s, page);
    LoadCoverage(c, s, s', page);
    LoadClose(c, s, s', page);
  }

  lemma LoadPipeline(c: Config, s: State, page: seq<Key>)
    requires Inv(c, s) && s.phase.Ready?
    requires Ascending(page)
    requires forall k :: k in page ==> k in s.log && After(Frontier(c, s), k)
    ensures Ascending(Pipeline(s) + page)
    ensures forall k :: k in page ==> After(c.start, k)
  {
    var all := Pipeline(s);
    if all != [] { AscendingJoin(all, page); } else { assert all + page == page; }
    forall k | k in page ensures After(c.start, k) {
      if all != [] { assert all[|all| - 1] in all; }
    }
  }

  lemma StepInv(c: Config, s: State, step: Step)
    requires Inv(c, s) && Enabled(c, s, step)
    ensures Inv(c, Apply(c, s, step))
  {
    hide *;
    match step
    case Commit(rows, becomes) => CommitInv(c, s, rows, becomes);
    case DeleteAudit => DeleteInv(c, s);
    case Connect => ConnectInv(c, s);
    case Load => LoadInv(c, s);
    case Yield => YieldInv(c, s);
    case Receive => ReceiveInv(c, s);
    case ReadStatus => ReadStatusInv(c, s);
    case Disconnect => DisconnectInv(c, s);
  }

  /** Every state of every interleaving satisfies the invariant. */
  lemma {:induction false} RunInv(c: Config, states: seq<State>, steps: seq<Step>, i: nat)
    requires Run(c, states, steps) && i < |states|
    ensures Inv(c, states[i])
  {
    if i == 0 {
      InitInv(c, states[0]);
    } else {
      RunInv(c, states, steps, i - 1);
      assert Enabled(c, states[i - 1], steps[i - 1]);
      StepInv(c, states[i - 1], steps[i - 1]);
    }
  }
}
