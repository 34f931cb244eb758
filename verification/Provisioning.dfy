/** Provisioning the platform's provider connections: create, rotate or confirm one per transport, in one transaction. */
module Provisioning {
  import opened Options
  import Normalization
  import Ordering

  type Id = nat

  // ----- Rows -----

  /** A stored ciphertext. Encryption is not deterministic: the same secret seals differently each time. */
  datatype Cipher = Sealed(secret: string, nonce: nat) | Damaged

  function Encrypt(secret: string, nonce: nat): Cipher { Sealed(secret, nonce) }

  /** Decryption undoes encryption, and fails on a damaged token. */
  function Decrypt(c: Cipher): Option<string> {
    match c case Sealed(secret, _) => Some(secret) case Damaged => None
  }

  datatype Connection = Connection(
    workspace: Id,
    platform: bool,
    transport: string,
    key: Option<Cipher>,
    active: bool,
    pausedAt: Option<int>,
    pauseReason: string,
    pauseUntil: Option<int>)

  datatype Route = Route(
    workspace: Id,
    connection: Id,
    engine: string,
    transport: string,
    model: string,
    isDefault: bool,
    active: bool)

  /** The stored rows; `next` is the next fresh row id. */
  datatype State = State(system: Option<Id>, connections: map<Id, Connection>, routes: map<Id, Route>, next: Id)

  /** Which engines a transport serves, and the model each engine is measured with. */
  datatype Catalog = Catalog(transports: set<string>, engines: map<string, seq<string>>, models: map<string, string>)

  function EnginesFor(catalog: Catalog, transport: string): seq<string> {
    if transport in catalog.engines then catalog.engines[transport] else []
  }

  function ModelFor(catalog: Catalog, engine: string): string {
    if engine in catalog.models then catalog.models[engine] else ""
  }

  datatype Status = Created | Rotated | Unchanged

  datatype Report = Report(transport: string, connection: Id, status: Status)

  datatype Refusal = KeyMissing | UnknownTransports(names: seq<string>) | EmptyCredential(transport: string) | InvalidToken

  datatype Result<T> = Ok(value: T) | Refused(reason: Refusal)

  /** The stored key already is this secret. */
  predicate HoldsSecret(c: Connection, secret: string) {
    c.key.Some? && Decrypt(c.key.value) == Some(secret)
  }

  /** Both would be the platform connection of one workspace and transport. */
  predicate SamePlace(a: Connection, b: Connection) {
    a.platform && b.platform && a.workspace == b.workspace && a.transport == b.transport
  }

  /** Both would be the route of one engine on one connection. */
  predicate SameRoute(a: Route, b: Route) {
    a.connection == b.connection && a.engine == b.engine
  }

  /** At most one platform connection per workspace and transport and one route per connection and engine;
      ids in use are below the next one, and routes hang on existing connections. */
  ghost predicate Tidy(s: State) {
    && (s.system.Some? ==> s.system.value < s.next)
    && (forall id :: id in s.connections ==> id < s.next)
    && (forall id :: id in s.routes ==> id < s.next && s.routes[id].connection in s.connections)
    && (forall a, b :: a in s.connections && b in s.connections && SamePlace(s.connections[a], s.connections[b]) ==> a == b)
    && (forall a, b :: a in s.routes && b in s.routes && SameRoute(s.routes[a], s.routes[b]) ==> a == b)
  }

  // ----- Queries -----

  function PlatformConnections(s: State, workspace: Id, transport: string): set<Id> {
    set id | id in s.connections && s.connections[id].platform
      && s.connections[id].workspace == workspace && s.connections[id].transport == transport
  }

  function RoutesOf(s: State, connection: Id, engine: string): set<Id> {
    set id | id in s.routes && s.routes[id].connection == connection && s.routes[id].engine == engine
  }

  lemma LowestExists(ids: set<Id>) returns (id: Id)
    requires ids != {}
    ensures id in ids && forall x :: x in ids ==> id <= x
  {
    id :| id in ids;
    var rest := ids;
    while rest != {}
      invariant id in ids && rest <= ids
      invariant forall x :: x in ids && x !in rest ==> id <= x
      decreases rest
    {
      var x :| x in rest;
      if x < id { id := x; }
      rest := rest - {x};
    }
  }

  /** The row a query finds. */
  function Only(ids: set<Id>): (id: Id)
    requires ids != {}
    ensures id in ids
  {
    assert exists id :: id in ids && forall x :: x in ids ==> id <= x by { var id := LowestExists(ids); }
    var id: Id :| id in ids && forall x :: x in ids ==> id <= x;
    id
  }

  // ----- The upserts, as functions of the rows -----

  function LoadSystem(s: State): (State, Id) {
    if s.system.Some? then (s, s.system.value)
    else (s.(system := Some(s.next), next := s.next + 1), s.next)
  }

  /** A rotation replaces the key and clears the pause; either way the connection is enabled. */
  function Refresh(c: Connection, secret: string, nonce: nat, same: bool): Connection {
    if same then c.(active := true)
    else c.(key := Some(Encrypt(secret, nonce)), pausedAt := None, pauseReason := "", pauseUntil := None, active := true)
  }

  function UpsertConnection(s: State, workspace: Id, transport: string, secret: string, nonce: nat)
    : Result<(State, Id, Status)>
  {
    var found := PlatformConnections(s, workspace, transport);
    if found == {} then
      var c := Connection(workspace, true, transport, Some(Encrypt(secret, nonce)), true, None, "", None);
      Ok((s.(connections := s.connections[s.next := c], next := s.next + 1), s.next, Created))
    else
      var id := Only(found);
      var c := s.connections[id];
      if c.key.Some? && Decrypt(c.key.value).None? then Refused(InvalidToken)
      else
        var same := c.key.Some? && Decrypt(c.key.value) == Some(secret);
        Ok((s.(connections := s.connections[id := Refresh(c, secret, nonce, same)]), id, if same then Unchanged else Rotated))
  }

  function UpsertRoute(s: State, connection: Id, workspace: Id, transport: string, engine: string, model: string): State {
    var found := RoutesOf(s, connection, engine);
    if found == {} then
      s.(routes := s.routes[s.next := Route(workspace, connection, engine, transport, model, true, true)], next := s.next + 1)
    else
      var id := Only(found);
      s.(routes := s.routes[id := s.routes[id].(model := model, isDefault := true, active := true)])
  }

  function UpsertRoutes(s: State, connection: Id, workspace: Id, transport: string, engines: seq<string>, catalog: Catalog): State
    decreases |engines|
  {
    if engines == [] then s
    else UpsertRoutes(UpsertRoute(s, connection, workspace, transport, engines[0], ModelFor(catalog, engines[0])),
                      connection, workspace, transport, engines[1..], catalog)
  }

  function Blank(secret: string): bool { Normalization.Strip(secret) == "" }

  function ProvisionOne(s: State, workspace: Id, transport: string, secret: string, nonce: nat, catalog: Catalog)
    : Result<(State, Report)>
  {
    if Blank(secret) then Refused(EmptyCredential(transport))
    else
      match UpsertConnection(s, workspace, transport, secret, nonce)
      case Refused(reason) => Refused(reason)
      case Ok((s', id, status)) =>
        Ok((UpsertRoutes(s', id, workspace, transport, EnginesFor(catalog, transport), catalog),
            Report(transport, id, status)))
  }

  /** The credentials of a run: a secret and an encryption nonce per transport. */
  type Credentials = map<string, (string, nat)>

  function ProvisionAll(s: State, workspace: Id, todo: seq<string>, credentials: Credentials, catalog: Catalog)
    : Result<(State, seq<Report>)>
    requires forall t :: t in todo ==> t in credentials
    decreases |todo|
  {
    if todo == [] then Ok((s, []))
    else
      var t := todo[0];
      match ProvisionOne(s, workspace, t, credentials[t].0, credentials[t].1, catalog)
      case Refused(reason) => Refused(reason)
      case Ok((s', report)) =>
        After([report], ProvisionAll(s', workspace, todo[1..], credentials, catalog))
  }

  /** The converged rows and the reports of a run, or why it was refused. */
  function Provision(s: State, keyConfigured: bool, credentials: Credentials, catalog: Catalog): Result<(State, seq<Report>)> {
    if !keyConfigured then Refused(KeyMissing)
    else
      var unknown := Ordering.SortedStrings(credentials.Keys - catalog.transports);
      if unknown != [] then Refused(UnknownTransports(unknown))
      else
        var (s', workspace) := LoadSystem(s);
        ProvisionAll(s', workspace, Ordering.SortedStrings(credentials.Keys), credentials, catalog)
  }

  // ----- The transaction -----

  /** A database session: what is stored, and what the open transaction sees. */
  class Session {
    var stored: State
    var work: State

    constructor (s: State)
      ensures stored == s && work == s
    {
      stored := s;
      work := s;
    }

    method UpsertOneConnection(workspace: Id, transport: string, secret: string, nonce: nat)
      returns (r: Result<(Id, Status)>)
      modifies this`work
      ensures match UpsertConnection(old(work), workspace, transport, secret, nonce)
              case Refused(reason) => r == Refused(reason) && work == old(work)
              case Ok((s, id, status)) => r == Ok((id, status)) && work == s
      // Nothing but one connection row is written, and it is the platform connection of this transport.
      ensures r.Ok? ==>
                && r.value.0 in PlatformConnections(work, workspace, transport)
                && work == old(work).(connections := work.connections, next := work.next)
                && work.connections.Keys == old(work).connections.Keys + {r.value.0}
                && forall c :: c in old(work).connections && c != r.value.0 ==> work.connections[c] == old(work).connections[c]
      // A new row holds the secret; a confirmed one is only enabled; a rotated one has only its key replaced
      // and its pause cleared besides.
      ensures r.Ok? ==>
                var (id, status) := r.value;
                match status
                case Created =>
                  && PlatformConnections(old(work), workspace, transport) == {} && id == old(work).next
                  && HoldsSecret(work.connections[id], secret) && work.connections[id].active
                case Unchanged =>
                  && id in old(work).connections && HoldsSecret(old(work).connections[id], secret)
                  && work.connections[id] == old(work).connections[id].(active := true)
                case Rotated =>
                  && id in old(work).connections && !HoldsSecret(old(work).connections[id], secret)
                  && HoldsSecret(work.connections[id], secret)
                  && work.connections[id] == old(work).connections[id].(key := work.connections[id].key,
                       pausedAt := None, pauseReason := "", pauseUntil := None, active := true)
      // It is refused exactly when the stored key does not decrypt.
      ensures r.Refused? <==>
                var found := PlatformConnections(old(work), workspace, transport);
                found != {} && old(work).connections[Only(found)].key.Some?
                && Decrypt(old(work).connections[Only(found)].key.value).None?
    {
      var found := PlatformConnections(work, workspace, transport);
      var ciphertext := Encrypt(secret, nonce);
      if found == {} {
        var id := work.next;
        var connection := Connection(workspace, true, transport, Some(ciphertext), true, None, "", None);
        work := work.(connections := work.connections[id := connection], next := id + 1);
        return Ok((id, Created));
      }
      var id := Only(found);
      var connection := work.connections[id];
      var sameKey := false;
      if connection.key.Some? {
        var plain := Decrypt(connection.key.value);
        if plain.None? { return Refused(InvalidToken); }
        sameKey := plain.value == secret;
      }
      if !sameKey {
        connection := connection.(key := Some(ciphertext), pausedAt := None, pauseReason := "", pauseUntil := None);
      }
      connection := connection.(active := true);
      work := work.(connections := work.connections[id := connection]);
      r := Ok((id, if sameKey then Unchanged else Rotated));
    }

    method UpsertAllRoutes(connection: Id, workspace: Id, transport: string, catalog: Catalog)
      modifies this`work
      ensures work == UpsertRoutes(old(work), connection, workspace, transport, EnginesFor(catalog, transport), catalog)
    {
      var engines := EnginesFor(catalog, transport);
      assert engines[0..] == engines;
      for i := 0 to |engines|
        invariant UpsertRoutes(work, connection, workspace, transport, engines[i..], catalog)
               == UpsertRoutes(old(work), connection, workspace, transport, engines, catalog)
      {
        assert engines[i..][1..] == engines[i + 1..];
        work := UpsertRoute(work, connection, workspace, transport, engines[i], ModelFor(catalog, engines[i]));
      }
    }

    method ProvisionTransport(workspace: Id, transport: string, secret: string, nonce: nat, catalog: Catalog)
      returns (r: Result<Report>)
      modifies this`work
      ensures match ProvisionOne(old(work), workspace, transport, secret, nonce, catalog)
              case Refused(reason) => r == Refused(reason)
              case Ok((s, report)) => r == Ok(report) && work == s
    {
      hide UpsertConnection, UpsertRoutes;
      if Blank(secret) { return Refused(EmptyCredential(transport)); }
      var upserted := UpsertOneConnection(workspace, transport, secret, nonce);
      if upserted.Refused? { return Refused(upserted.reason); }
      UpsertAllRoutes(upserted.value.0, workspace, transport, catalog);
      r := Ok(Report(transport, upserted.value.0, upserted.value.1));
    }

    /** The loop over the transports; it stops at the first refusal. */
    method ProvisionTransports(workspace: Id, todo: seq<string>, credentials: Credentials, catalog: Catalog)
      returns (r: Result<seq<Report>>)
      requires forall t :: t in todo ==> t in credentials
      modifies this`work
      ensures match ProvisionAll(old(work), workspace, todo, credentials, catalog)
              case Refused(reason) => r == Refused(reason)
              case Ok((s, reports)) => r == Ok(reports) && work == s
    {
      hide ProvisionOne, After;
      var reports: seq<Report> := [];
      assert todo[0..] == todo;
      AfterNothing(ProvisionAll(work, workspace, todo, credentials, catalog));
      for i := 0 to |todo|
        invariant ProvisionAll(old(work), workspace, todo, credentials, catalog)
               == After(reports, ProvisionAll(work, workspace, todo[i..], credentials, catalog))
      {
        assert todo[i..][1..] == todo[i + 1..];
        var report := ProvisionTransport(workspace, todo[i], credentials[todo[i]].0, credentials[todo[i]].1, catalog);
        if report.Refused? {
          AfterRefused(reports, report.reason);
          return Refused(report.reason);
        }
        AfterOne(reports, report.value, ProvisionAll(work, workspace, todo[i + 1..], credentials, catalog));
        reports := reports + [report.value];
      }
      AfterAll(reports, work);
      r := Ok(reports);
    }

    /** One run. Only a run that is neither refused nor dry changes what is stored; a dry run reports what
        the real one would have. */
    method ProvisionConnections(keyConfigured: bool, credentials: Credentials, catalog: Catalog, dryRun: bool)
      returns (r: Result<seq<Report>>)
      requires work == stored
      modifies this
      ensures match Provision(old(stored), keyConfigured, credentials, catalog)
              case Refused(reason) => r == Refused(reason) && stored == old(stored)
              case Ok((s, reports)) => r == Ok(reports) && stored == (if dryRun then old(stored) else s) && work == stored
    {
      hide ProvisionAll;
      if !keyConfigured { return Refused(KeyMissing); }
      var unknown := Ordering.SortedStrings(credentials.Keys - catalog.transports);
      if unknown != [] { return Refused(UnknownTransports(unknown)); }
      var workspace;
      if work.system.None? {
        workspace := work.next;
        work := work.(system := Some(workspace), next := workspace + 1);
      } else {
        workspace := work.system.value;
      }
      r := ProvisionTransports(workspace, Ordering.SortedStrings(credentials.Keys), credentials, catalog);
      if r.Refused? { return; }
      if dryRun {
        work := stored;
      } else {
        stored := work;
      }
    }
  }

  /** A result with earlier reports in front. */
  function After(reports: seq<Report>, r: Result<(State, seq<Report>)>): Result<(State, seq<Report>)> {
    match r
    case Refused(reason) => Refused(reason)
    case Ok((s, later)) => Ok((s, reports + later))
  }

  lemma AfterNothing(r: Result<(State, seq<Report>)>)
    ensures After([], r) == r
  {
    if r.Ok? { assert [] + r.value.1 == r.value.1; }
  }

  lemma AfterOne(reports: seq<Report>, report: Report, r: Result<(State, seq<Report>)>)
    ensures After(reports, After([report], r)) == After(reports + [report], r)
  {
    if r.Ok? { assert reports + ([report] + r.value.1) == reports + [report] + r.value.1; }
  }

  lemma AfterRefused(reports: seq<Report>, reason: Refusal)
    ensures After(reports, Refused(reason)) == Refused(reason)
  {
  }

  lemma AfterAll(reports: seq<Report>, s: State)
    ensures After(reports, Ok((s, []))) == Ok((s, reports))
  {
    assert reports + [] == reports;
  }
}
