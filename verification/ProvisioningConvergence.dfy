/** A second provisioning run changes nothing, rotation replaces one secret, and other rows are left alone. */
module ProvisioningConvergence {
  import opened Options
  import opened Provisioning
  import Ordering

  // ----- What one upsert touches -----

  /** A route is as the catalog wants it. */
  predicate RouteSettled(s: State, connection: Id, engine: string, model: string) {
    var found := RoutesOf(s, connection, engine);
    found != {} && var r := s.routes[Only(found)]; r.model == model && r.isDefault && r.active
  }

  /** Rows outside one connection's route for one engine are as before. */
  ghost predicate OnlyRoute(s: State, s': State, connection: Id, engine: string) {
    && s'.system == s.system && s'.connections == s.connections && s.next <= s'.next
    && (forall id :: id in s.routes ==> id in s'.routes && s'.routes[id].connection == s.routes[id].connection)
    && (forall id :: id in s.routes && (s.routes[id].connection != connection || s.routes[id].engine != engine) ==>
          s'.routes[id] == s.routes[id])
    && (forall id :: id in s'.routes && id !in s.routes ==> s'.routes[id].connection == connection)
    && (forall c, e :: c != connection || e != engine ==> RoutesOf(s', c, e) == RoutesOf(s, c, e))
  }

  lemma NewRoute(s: State, connection: Id, workspace: Id, transport: string, engine: string, model: string)
    requires Tidy(s) && connection in s.connections && RoutesOf(s, connection, engine) == {}
    ensures var s' := UpsertRoute(s, connection, workspace, transport, engine, model);
            Tidy(s') && RoutesOf(s', connection, engine) == {s.next} && s.next !in s.routes
  {
    var s' := UpsertRoute(s, connection, workspace, transport, engine, model);
    assert s.next !in s.routes;
    forall r | r in s.routes ensures !(s.routes[r].connection == connection && s.routes[r].engine == engine) {
      assert r !in RoutesOf(s, connection, engine);
    }
    assert s'.routes[s.next].connection == connection && s'.routes[s.next].engine == engine;
  }

  lemma OldRoute(s: State, connection: Id, workspace: Id, transport: string, engine: string, model: string)
    requires Tidy(s) && connection in s.connections && RoutesOf(s, connection, engine) != {}
    ensures var s' := UpsertRoute(s, connection, workspace, transport, engine, model);
            Tidy(s') && RoutesOf(s', connection, engine) == RoutesOf(s, connection, engine)
            && RoutesOf(s, connection, engine) == {Only(RoutesOf(s, connection, engine))}
  {
    var s' := UpsertRoute(s, connection, workspace, transport, engine, model);
    var found := RoutesOf(s, connection, engine);
    var id := Only(found);
    forall r | r in found ensures r == id { assert SameRoute(s.routes[r], s.routes[id]); }
    forall r | r in s.routes
      ensures s'.routes[r].connection == s.routes[r].connection && s'.routes[r].engine == s.routes[r].engine { }
    assert s'.routes.Keys == s.routes.Keys;
    forall a, b | a in s'.routes && b in s'.routes && SameRoute(s'.routes[a], s'.routes[b]) ensures a == b {
      assert SameRoute(s.routes[a], s.routes[b]);
    }
  }

  lemma RouteUpsert(s: State, connection: Id, workspace: Id, transport: string, engine: string, model: string)
    requires Tidy(s) && connection in s.connections
    ensures var s' := UpsertRoute(s, connection, workspace, transport, engine, model);
            Tidy(s') && OnlyRoute(s, s', connection, engine) && RouteSettled(s', connection, engine, model)
  {
    hide Tidy;
    var s' := UpsertRoute(s, connection, workspace, transport, engine, model);
    var found := RoutesOf(s, connection, engine);
    if found == {} {
      NewRoute(s, connection, workspace, transport, engine, model);
    } else {
      OldRoute(s, connection, workspace, transport, engine, model);
    }
    forall c, e | c != connection || e != engine ensures RoutesOf(s', c, e) == RoutesOf(s, c, e) { }
  }

  /** A settled route is left exactly as it is. */
  lemma RouteUpsertIsIdentity(s: State, connection: Id, workspace: Id, transport: string, engine: string, model: string)
    requires RouteSettled(s, connection, engine, model)
    ensures UpsertRoute(s, connection, workspace, transport, engine, model) == s
  {
  }

  ghost predicate RoutesSettled(s: State, connection: Id, engines: seq<string>, catalog: Catalog) {
    forall e :: e in engines ==> RouteSettled(s, connection, e, ModelFor(catalog, e))
  }

  /** Only routes of one connection changed. */
  ghost predicate OnlyRoutesOf(s: State, s': State, connection: Id) {
    && s'.system == s.system && s'.connections == s.connections && s.next <= s'.next
    && (forall id :: id in s.routes ==> id in s'.routes)
    && (forall id :: id in s.routes && s.routes[id].connection != connection ==> s'.routes[id] == s.routes[id])
    && (forall id :: id in s.routes ==> s'.routes[id].connection == s.routes[id].connection)
    && (forall id :: id in s'.routes && id !in s.routes ==> s'.routes[id].connection == connection)
    && (forall c, e :: c != connection ==> RoutesOf(s', c, e) == RoutesOf(s, c, e))
  }

  lemma SettledRouteKept(s: State, s': State, connection: Id, engine: string, model: string, changed: string)
    requires OnlyRoute(s, s', connection, changed) && engine != changed && RouteSettled(s, connection, engine, model)
    ensures RouteSettled(s', connection, engine, model)
  {
  }

  lemma {:induction false} RoutesUpsert(s: State, connection: Id, workspace: Id, transport: string,
                                        engines: seq<string>, catalog: Catalog, done: seq<string>)
    requires Tidy(s) && connection in s.connections && RoutesSettled(s, connection, done, catalog)
    ensures var s' := UpsertRoutes(s, connection, workspace, transport, engines, catalog);
            Tidy(s') && OnlyRoutesOf(s, s', connection)
            && RoutesSettled(s', connection, done, catalog) && RoutesSettled(s', connection, engines, catalog)
    decreases |engines|
  {
    hide Tidy, UpsertRoute, RoutesOf, RouteSettled;
    if engines != [] {
      var e := engines[0];
      var s1 := UpsertRoute(s, connection, workspace, transport, e, ModelFor(catalog, e));
      RouteUpsert(s, connection, workspace, transport, e, ModelFor(catalog, e));
      forall d | d in done + [e] ensures RouteSettled(s1, connection, d, ModelFor(catalog, d)) {
        if d != e { SettledRouteKept(s, s1, connection, d, ModelFor(catalog, d), e); }
      }
      RoutesUpsert(s1, connection, workspace, transport, engines[1..], catalog, done + [e]);
    }
  }

  lemma {:induction false} RoutesUpsertIsIdentity(s: State, connection: Id, workspace: Id, transport: string,
                                                  engines: seq<string>, catalog: Catalog)
    requires RoutesSettled(s, connection, engines, catalog)
    ensures UpsertRoutes(s, connection, workspace, transport, engines, catalog) == s
    decreases |engines|
  {
    if engines != [] {
      RouteUpsertIsIdentity(s, connection, workspace, transport, engines[0], ModelFor(catalog, engines[0]));
      RoutesUpsertIsIdentity(s, connection, workspace, transport, engines[1..], catalog);
    }
  }

  // ----- One transport -----

  /** The transport's connection exists, holds this secret, and is enabled. */
  predicate ConnectionSettled(s: State, workspace: Id, transport: string, secret: string) {
    var found := PlatformConnections(s, workspace, transport);
    found != {} &&
    var c := s.connections[Only(found)];
    c.active && c.key.Some? && Decrypt(c.key.value) == Some(secret)
  }

  ghost predicate Settled(s: State, workspace: Id, transport: string, secret: string, catalog: Catalog) {
    && ConnectionSettled(s, workspace, transport, secret)
    && RoutesSettled(s, Only(PlatformConnections(s, workspace, transport)), EnginesFor(catalog, transport), catalog)
  }

  /** What one transport's run may change: its own connection row, and that connection's routes. */
  ghost predicate OnlyTransport(s: State, s': State, workspace: Id, transport: string) {
    var mine := PlatformConnections(s, workspace, transport);
    && s'.system == s.system && s.next <= s'.next
    && (forall id :: id in s.connections ==> id in s'.connections)
    && (forall id :: id in s.connections && id !in mine ==> s'.connections[id] == s.connections[id])
    && (forall id :: id in s'.connections && id !in s.connections ==> id in PlatformConnections(s', workspace, transport))
    && (forall t :: t != transport ==> PlatformConnections(s', workspace, t) == PlatformConnections(s, workspace, t))
    && (forall id :: id in s.routes ==> id in s'.routes)
    && (forall id :: id in s.routes && s.routes[id].connection !in mine ==> s'.routes[id] == s.routes[id])
    && (forall id :: id in s.routes ==> s'.routes[id].connection == s.routes[id].connection)
    && (forall id :: id in s'.routes && id !in s.routes ==>
          s'.routes[id].connection in PlatformConnections(s', workspace, transport))
    && (forall c, e :: c in s.connections && c !in mine ==> RoutesOf(s', c, e) == RoutesOf(s, c, e))
  }

  /** The facts about a connection upsert that the run is built from. */
  ghost predicate OnlyConnection(s: State, s': State, workspace: Id, transport: string, id: Id) {
    && s'.routes == s.routes && s'.system == s.system && s.next <= s'.next
    && PlatformConnections(s', workspace, transport) == {id}
    && PlatformConnections(s, workspace, transport) == (if id in s.connections then {id} else {})
    && s'.connections.Keys == s.connections.Keys + {id}
    && (forall c :: c in s.connections && c != id ==> s'.connections[c] == s.connections[c])
    && (forall t :: t != transport ==> PlatformConnections(s', workspace, t) == PlatformConnections(s, workspace, t))
  }

  lemma NewConnection(s: State, workspace: Id, transport: string, secret: string, nonce: nat)
    requires Tidy(s) && PlatformConnections(s, workspace, transport) == {}
    ensures UpsertConnection(s, workspace, transport, secret, nonce).Ok?
    ensures var (s', id, status) := UpsertConnection(s, workspace, transport, secret, nonce).value;
            Tidy(s') && id == s.next && id !in s.connections && OnlyConnection(s, s', workspace, transport, id)
            && status == Created
            && s'.connections[id] == Connection(workspace, true, transport, Some(Encrypt(secret, nonce)), true, None, "", None)
  {
    var (s', id, status) := UpsertConnection(s, workspace, transport, secret, nonce).value;
    assert s.next !in s.connections;
    forall c | c in s.connections ensures !SamePlace(s.connections[c], s'.connections[id]) {
      assert c !in PlatformConnections(s, workspace, transport);
    }
    assert PlatformConnections(s', workspace, transport) == {id};
  }

  lemma OldConnection(s: State, workspace: Id, transport: string, secret: string, nonce: nat)
    requires Tidy(s) && PlatformConnections(s, workspace, transport) != {}
    requires UpsertConnection(s, workspace, transport, secret, nonce).Ok?
    ensures var (s', id, status) := UpsertConnection(s, workspace, transport, secret, nonce).value;
            Tidy(s') && id in s.connections && OnlyConnection(s, s', workspace, transport, id)
            && (var same := s.connections[id].key.Some? && Decrypt(s.connections[id].key.value) == Some(secret);
                s'.connections[id] == Refresh(s.connections[id], secret, nonce, same)
                && status == (if same then Unchanged else Rotated))
  {
    var (s', id, status) := UpsertConnection(s, workspace, transport, secret, nonce).value;
    var found := PlatformConnections(s, workspace, transport);
    forall c | c in found ensures c == id { assert SamePlace(s.connections[c], s.connections[id]); }
    assert found == {id};
    StillInPlace(s, s', id);
  }

  lemma StillInPlace(s: State, s': State, id: Id)
    requires Tidy(s) && id in s.connections
    requires s' == s.(connections := s'.connections) && s'.connections.Keys == s.connections.Keys
    requires forall c :: c in s.connections && c != id ==> s'.connections[c] == s.connections[c]
    requires var (c, c') := (s.connections[id], s'.connections[id]);
             c'.workspace == c.workspace && c'.platform == c.platform && c'.transport == c.transport
    ensures Tidy(s')
    ensures forall w, t :: PlatformConnections(s', w, t) == PlatformConnections(s, w, t)
  {
    forall c | c in s.connections
      ensures var (x, y) := (s.connections[c], s'.connections[c]);
              x.workspace == y.workspace && x.platform == y.platform && x.transport == y.transport { }
    forall a, b | a in s'.connections && b in s'.connections && SamePlace(s'.connections[a], s'.connections[b]) ensures a == b {
      assert SamePlace(s.connections[a], s.connections[b]);
    }
    forall w, t ensures PlatformConnections(s', w, t) == PlatformConnections(s, w, t) { }
  }

  lemma ConnectionUpsert(s: State, workspace: Id, transport: string, secret: string, nonce: nat)
    requires Tidy(s) && UpsertConnection(s, workspace, transport, secret, nonce).Ok?
    ensures var (s', id, status) := UpsertConnection(s, workspace, transport, secret, nonce).value;
            Tidy(s') && OnlyConnection(s, s', workspace, transport, id) && ConnectionSettled(s', workspace, transport, secret)
  {
    hide Tidy, UpsertConnection, PlatformConnections;
    if PlatformConnections(s, workspace, transport) == {} {
      NewConnection(s, workspace, transport, secret, nonce);
    } else {
      OldConnection(s, workspace, transport, secret, nonce);
    }
    var (s', id, status) := UpsertConnection(s, workspace, transport, secret, nonce).value;
    assert Only(PlatformConnections(s', workspace, transport)) == id;
  }

  lemma SameConnections(s: State, s': State)
    requires s'.connections == s.connections
    ensures forall w, t :: PlatformConnections(s', w, t) == PlatformConnections(s, w, t)
  {
  }

  lemma SameRoutes(s: State, s': State)
    requires s'.routes == s.routes
    ensures forall c, e :: RoutesOf(s', c, e) == RoutesOf(s, c, e)
  {
  }

  /** A connection upsert and then its routes change nothing else. */
  lemma OnlyOneTransport(s: State, s1: State, s2: State, workspace: Id, transport: string, id: Id)
    requires Tidy(s) && OnlyConnection(s, s1, workspace, transport, id) && OnlyRoutesOf(s1, s2, id)
    ensures OnlyTransport(s, s2, workspace, transport)
    ensures PlatformConnections(s2, workspace, transport) == {id}
  {
    hide PlatformConnections, RoutesOf;
    SameConnections(s1, s2);
    SameRoutes(s, s1);
    assert forall r :: r in s.routes ==> s.routes[r].connection in s.connections;
  }

  lemma TransportRun(s: State, workspace: Id, transport: string, secret: string, nonce: nat, catalog: Catalog)
    requires Tidy(s) && ProvisionOne(s, workspace, transport, secret, nonce, catalog).Ok?
    ensures var (s', report) := ProvisionOne(s, workspace, transport, secret, nonce, catalog).value;
            && Tidy(s') && OnlyTransport(s, s', workspace, transport)
            && Settled(s', workspace, transport, secret, catalog)
            && report.connection == Only(PlatformConnections(s', workspace, transport))
            && report.transport == transport
  {
    hide Tidy, UpsertConnection, RouteSettled, UpsertRoutes, PlatformConnections, RoutesOf, OnlyTransport;
    var (s1, id, status) := UpsertConnection(s, workspace, transport, secret, nonce).value;
    ConnectionUpsert(s, workspace, transport, secret, nonce);
    var engines := EnginesFor(catalog, transport);
    RoutesUpsert(s1, id, workspace, transport, engines, catalog, []);
    var s2 := UpsertRoutes(s1, id, workspace, transport, engines, catalog);
    OnlyOneTransport(s, s1, s2, workspace, transport, id);
    assert Only({id}) == id;
  }

  /** A settled transport is confirmed and nothing is written. */
  lemma TransportRunIsIdentity(s: State, workspace: Id, transport: string, secret: string, nonce: nat, catalog: Catalog)
    requires Settled(s, workspace, transport, secret, catalog) && !Blank(secret)
    ensures ProvisionOne(s, workspace, transport, secret, nonce, catalog)
         == Ok((s, Report(transport, Only(PlatformConnections(s, workspace, transport)), Unchanged)))
  {
    var id := Only(PlatformConnections(s, workspace, transport));
    var c := s.connections[id];
    assert Refresh(c, secret, nonce, true) == c;
    assert s.connections[id := c] == s.connections;
    RoutesUpsertIsIdentity(s, id, workspace, transport, EnginesFor(catalog, transport), catalog);
  }

  // ----- A whole run -----

  /** The row of one of the run's transports. */
  predicate Supplied(s: State, workspace: Id, transports: seq<string>, id: Id) {
    id in s.connections && s.connections[id].platform && s.connections[id].workspace == workspace
    && s.connections[id].transport in transports
  }

  /** Connections and routes of transports the run does not name are as before, and every new row is of one it names. */
  ghost predicate OnlyTransports(s: State, s': State, workspace: Id, transports: seq<string>) {
    && s'.system == s.system && s.next <= s'.next
    && (forall id :: id in s.connections ==> id in s'.connections)
    && (forall id :: id in s.connections && !Supplied(s, workspace, transports, id) ==> s'.connections[id] == s.connections[id])
    && (forall id :: id in s'.connections && id !in s.connections ==> Supplied(s', workspace, transports, id))
    && (forall t :: t !in transports ==> PlatformConnections(s', workspace, t) == PlatformConnections(s, workspace, t))
    && (forall id :: id in s.routes ==> id in s'.routes && s'.routes[id].connection == s.routes[id].connection)
    && (forall id :: id in s.routes && !Supplied(s, workspace, transports, s.routes[id].connection) ==> s'.routes[id] == s.routes[id])
    && (forall id :: id in s'.routes && id !in s.routes ==> Supplied(s', workspace, transports, s'.routes[id].connection))
  }

  lemma StillSupplied(s: State, s1: State, workspace: Id, transport: string, rest: seq<string>, id: Id)
    requires OnlyTransport(s, s1, workspace, transport) && transport !in rest && id in s.connections
    ensures Supplied(s1, workspace, rest, id) <==> Supplied(s, workspace, rest, id)
  {
    var u := s1.connections[id].transport;
    var v := s.connections[id].transport;
    assert u != transport ==> PlatformConnections(s1, workspace, u) == PlatformConnections(s, workspace, u);
    assert v != transport ==> PlatformConnections(s1, workspace, v) == PlatformConnections(s, workspace, v);
    assert id in PlatformConnections(s1, workspace, u) <==> Supplied(s1, workspace, [u], id);
    assert id in PlatformConnections(s, workspace, v) <==> Supplied(s, workspace, [v], id);
    assert id in PlatformConnections(s1, workspace, v) <==> Supplied(s1, workspace, [v], id);
    assert id in PlatformConnections(s, workspace, u) <==> Supplied(s, workspace, [u], id);
  }

  lemma SuppliedIsPlaced(s: State, workspace: Id, transport: string, id: Id)
    ensures Supplied(s, workspace, [transport], id) <==> id in PlatformConnections(s, workspace, transport)
  {
  }

  /** A transport's rows, once written, survive the rest of the run. */
  lemma RowsSurvive(s: State, s': State, workspace: Id, transport: string, rest: seq<string>)
    requires OnlyTransports(s, s', workspace, rest) && transport !in rest
    ensures PlatformConnections(s', workspace, transport) == PlatformConnections(s, workspace, transport)
    ensures forall id :: id in PlatformConnections(s, workspace, transport) ==>
              id in s'.connections && s'.connections[id] == s.connections[id]
    ensures forall id, e :: id in PlatformConnections(s, workspace, transport) ==> RoutesOf(s', id, e) == RoutesOf(s, id, e)
    ensures forall r :: r in s.routes && s.routes[r].connection in PlatformConnections(s, workspace, transport) ==>
              r in s'.routes && s'.routes[r] == s.routes[r]
  {
    forall id | id in PlatformConnections(s, workspace, transport)
      ensures !Supplied(s, workspace, rest, id) && !Supplied(s', workspace, rest, id) && id in s'.connections
           && s'.connections[id] == s.connections[id] { }
    forall id, e | id in PlatformConnections(s, workspace, transport) ensures RoutesOf(s', id, e) == RoutesOf(s, id, e) {
      forall r ensures r in RoutesOf(s', id, e) <==> r in RoutesOf(s, id, e) { }
    }
  }

  ghost predicate AllSettled(s: State, workspace: Id, transports: seq<string>, credentials: Credentials, catalog: Catalog) {
    forall t :: t in transports ==> t in credentials && Settled(s, workspace, t, credentials[t].0, catalog)
  }

  lemma SettledSurvives(s: State, s': State, workspace: Id, t: string, secret: string, catalog: Catalog, rest: seq<string>)
    requires OnlyTransports(s, s', workspace, rest) && t !in rest && Settled(s, workspace, t, secret, catalog)
    ensures Settled(s', workspace, t, secret, catalog)
  {
    hide OnlyTransports;
    RowsSurvive(s, s', workspace, t, rest);
    var id := Only(PlatformConnections(s, workspace, t));
    forall e | e in EnginesFor(catalog, t) ensures RouteSettled(s', id, e, ModelFor(catalog, e)) {
      assert RouteSettled(s, id, e, ModelFor(catalog, e));
      assert Only(RoutesOf(s, id, e)) in RoutesOf(s, id, e);
    }
  }

  lemma TransportsCompose(s: State, s1: State, s': State, workspace: Id, todo: seq<string>)
    requires todo != [] && todo[0] !in todo[1..]
    requires OnlyTransport(s, s1, workspace, todo[0]) && OnlyTransports(s1, s', workspace, todo[1..])
    ensures OnlyTransports(s, s', workspace, todo)
  {
    var t, rest := todo[0], todo[1..];
    assert todo == [t] + rest;
    RowsSurvive(s1, s', workspace, t, rest);
    forall id | id in s.connections && !Supplied(s, workspace, todo, id) ensures s'.connections[id] == s.connections[id] {
      StillSupplied(s, s1, workspace, t, rest, id);
      SuppliedIsPlaced(s, workspace, t, id);
    }
    forall id | id in s'.connections && id !in s.connections ensures Supplied(s', workspace, todo, id) {
      if id in s1.connections { SuppliedIsPlaced(s', workspace, t, id); }
    }
    RoutesCompose(s, s1, s', workspace, todo);
  }

  lemma RoutesCompose(s: State, s1: State, s': State, workspace: Id, todo: seq<string>)
    requires todo != [] && todo[0] !in todo[1..]
    requires OnlyTransport(s, s1, workspace, todo[0]) && OnlyTransports(s1, s', workspace, todo[1..])
    ensures forall r :: r in s.routes && !Supplied(s, workspace, todo, s.routes[r].connection) ==>
              r in s'.routes && s'.routes[r] == s.routes[r]
    ensures forall r :: r in s'.routes && r !in s.routes ==> Supplied(s', workspace, todo, s'.routes[r].connection)
  {
    var t, rest := todo[0], todo[1..];
    assert todo == [t] + rest;
    forall r | r in s.routes && !Supplied(s, workspace, todo, s.routes[r].connection) ensures s'.routes[r] == s.routes[r] {
      var c := s.routes[r].connection;
      SuppliedIsPlaced(s, workspace, t, c);
      if Supplied(s1, workspace, rest, c) { NotNewlySupplied(s, s1, workspace, t, rest, c); }
    }
    forall r | r in s'.routes && r !in s.routes ensures Supplied(s', workspace, todo, s'.routes[r].connection) {
      var c := s'.routes[r].connection;
      if r in s1.routes {
        assert c in PlatformConnections(s1, workspace, t);
        SuppliedIsPlaced(s', workspace, t, c);
      }
    }
  }

  lemma NotNewlySupplied(s: State, s1: State, workspace: Id, transport: string, rest: seq<string>, id: Id)
    requires OnlyTransport(s, s1, workspace, transport) && transport !in rest && Supplied(s1, workspace, rest, id)
    ensures Supplied(s, workspace, rest, id)
  {
    if id in s.connections {
      StillSupplied(s, s1, workspace, transport, rest, id);
    } else {
      assert false;
    }
  }

  lemma {:induction false} RunSettles(s: State, workspace: Id, todo: seq<string>, credentials: Credentials, catalog: Catalog)
    requires Tidy(s) && Ordering.NoDuplicates(todo) && forall t :: t in todo ==> t in credentials
    requires ProvisionAll(s, workspace, todo, credentials, catalog).Ok?
    ensures var (s', reports) := ProvisionAll(s, workspace, todo, credentials, catalog).value;
            && Tidy(s') && OnlyTransports(s, s', workspace, todo)
            && AllSettled(s', workspace, todo, credentials, catalog)
            && Confirmed(reports) == Confirmations(s', workspace, todo)
    decreases |todo|
  {
    hide Tidy, ProvisionOne, OnlyTransport, OnlyTransports, Settled, PlatformConnections;
    if todo == [] {
      NothingTouched(s, workspace);
    } else {
      var t, rest := todo[0], todo[1..];
      assert forall i :: 0 <= i < |rest| ==> rest[i] == todo[i + 1];
      TransportRun(s, workspace, t, credentials[t].0, credentials[t].1, catalog);
      var (s1, report) := ProvisionOne(s, workspace, t, credentials[t].0, credentials[t].1, catalog).value;
      RunSettles(s1, workspace, rest, credentials, catalog);
      var (s', later) := ProvisionAll(s1, workspace, rest, credentials, catalog).value;
      TransportsCompose(s, s1, s', workspace, todo);
      SettledSurvives(s1, s', workspace, t, credentials[t].0, catalog, rest);
      RowsSurvive(s1, s', workspace, t, rest);
      ConfirmedFirst(report, later);
    }
  }

  lemma NothingTouched(s: State, workspace: Id)
    ensures OnlyTransports(s, s, workspace, [])
  {
  }

  /** The reports of a run that finds every row in place. */
  function Confirmations(s: State, workspace: Id, transports: seq<string>): seq<Report>
    requires forall t :: t in transports ==> PlatformConnections(s, workspace, t) != {}
  {
    if transports == [] then []
    else
      [Report(transports[0], Only(PlatformConnections(s, workspace, transports[0])), Unchanged)]
      + Confirmations(s, workspace, transports[1..])
  }

  /** The same rows, all unchanged. */
  function Confirmed(reports: seq<Report>): seq<Report> {
    if reports == [] then [] else [reports[0].(status := Unchanged)] + Confirmed(reports[1..])
  }

  lemma ConfirmedFirst(report: Report, later: seq<Report>)
    ensures Confirmed([report] + later) == [report.(status := Unchanged)] + Confirmed(later)
  {
  }

  /** Over rows that are in place a run confirms them and writes nothing. */
  lemma {:induction false} SettledRunIsIdentity(s: State, workspace: Id, todo: seq<string>, credentials: Credentials, catalog: Catalog)
    requires AllSettled(s, workspace, todo, credentials, catalog)
    requires forall t :: t in todo ==> !Blank(credentials[t].0)
    ensures ProvisionAll(s, workspace, todo, credentials, catalog) == Ok((s, Confirmations(s, workspace, todo)))
    decreases |todo|
  {
    hide ProvisionOne, Settled, PlatformConnections, Blank;
    if todo != [] {
      TransportRunIsIdentity(s, workspace, todo[0], credentials[todo[0]].0, credentials[todo[0]].1, catalog);
      SettledRunIsIdentity(s, workspace, todo[1..], credentials, catalog);
    }
  }

  lemma {:induction false} AcceptedSecretsAreNotBlank(s: State, workspace: Id, todo: seq<string>, credentials: Credentials, catalog: Catalog)
    requires forall t :: t in todo ==> t in credentials
    requires ProvisionAll(s, workspace, todo, credentials, catalog).Ok?
    ensures forall t :: t in todo ==> !Blank(credentials[t].0)
    decreases |todo|
  {
    hide UpsertConnection, UpsertRoutes, Blank;
    if todo != [] {
      var s1 := ProvisionOne(s, workspace, todo[0], credentials[todo[0]].0, credentials[todo[0]].1, catalog).value.0;
      AcceptedSecretsAreNotBlank(s1, workspace, todo[1..], credentials, catalog);
    }
  }

  /** The rows seen once the system workspace is there. */
  function Loaded(s: State): State { LoadSystem(s).0 }

  function SystemWorkspace(s: State): Id { LoadSystem(s).1 }

  lemma LoadingIsHarmless(s: State)
    requires Tidy(s)
    ensures Tidy(Loaded(s)) && Loaded(s).system == Some(SystemWorkspace(s))
    ensures Loaded(s).connections == s.connections && Loaded(s).routes == s.routes
    ensures s.system.Some? ==> Loaded(s) == s && SystemWorkspace(s) == s.system.value
    ensures s.system.None? ==> SystemWorkspace(s) == s.next && forall id :: id in s.connections ==> id != SystemWorkspace(s)
  {
  }

  /** What one accepted run leaves behind. */
  lemma RunOutcome(s: State, credentials: Credentials, catalog: Catalog)
    requires Tidy(s) && Provision(s, true, credentials, catalog).Ok?
    ensures var (s', reports) := Provision(s, true, credentials, catalog).value;
            var (w, todo) := (SystemWorkspace(s), Ordering.SortedStrings(credentials.Keys));
            && Tidy(s') && s'.system == Some(w) && OnlyTransports(Loaded(s), s', w, todo)
            && AllSettled(s', w, todo, credentials, catalog)
            && Confirmed(reports) == Confirmations(s', w, todo)
            && forall t :: t in todo ==> !Blank(credentials[t].0)
  {
    hide Tidy, ProvisionAll, Settled, PlatformConnections, Blank;
    LoadingIsHarmless(s);
    var todo := Ordering.SortedStrings(credentials.Keys);
    Ordering.SortedStringsDistinct(credentials.Keys);
    RunSettles(Loaded(s), SystemWorkspace(s), todo, credentials, catalog);
    AcceptedSecretsAreNotBlank(Loaded(s), SystemWorkspace(s), todo, credentials, catalog);
  }

  /** A second run with the same secrets, however they seal this time, reports the same rows all unchanged
      and leaves every row equal. */
  lemma SecondRunChangesNothing(s: State, credentials: Credentials, again: Credentials, catalog: Catalog)
    requires Tidy(s) && Provision(s, true, credentials, catalog).Ok?
    requires again.Keys == credentials.Keys && forall t :: t in again ==> again[t].0 == credentials[t].0
    ensures var (s', reports) := Provision(s, true, credentials, catalog).value;
            Provision(s', true, again, catalog) == Ok((s', Confirmed(reports)))
  {
    hide Tidy, ProvisionAll, Settled, PlatformConnections, OnlyTransports, Confirmed, Confirmations, Blank;
    var s' := Provision(s, true, credentials, catalog).value.0;
    var (w, todo) := (SystemWorkspace(s), Ordering.SortedStrings(credentials.Keys));
    RunOutcome(s, credentials, catalog);
    assert LoadSystem(s') == (s', w);
    assert AllSettled(s', w, todo, again, catalog);
    SettledRunIsIdentity(s', w, todo, again, catalog);
  }

  // ----- What becomes of one transport, and of everything else -----

  /** The row a transport ends with, and the status reported for it: the very row when the stored key is
      this secret, but enabled; otherwise the same row with only its key replaced, its pause cleared. */
  function Outcome(s: State, workspace: Id, transport: string, secret: string, nonce: nat): (Connection, Status) {
    var found := PlatformConnections(s, workspace, transport);
    if found == {} then
      (Connection(workspace, true, transport, Some(Encrypt(secret, nonce)), true, None, "", None), Created)
    else
      var c := s.connections[Only(found)];
      if HoldsSecret(c, secret) then (c.(active := true), Unchanged)
      else
        (c.(key := Some(Encrypt(secret, nonce)), pausedAt := None, pauseReason := "", pauseUntil := None, active := true), Rotated)
  }

  /** A stored key that no longer decrypts. */
  predicate Unreadable(s: State, workspace: Id, transport: string) {
    var found := PlatformConnections(s, workspace, transport);
    found != {} && s.connections[Only(found)].key.Some? && Decrypt(s.connections[Only(found)].key.value).None?
  }

  /** One transport's row and report, in the rows `s'` that follow `s`. */
  ghost predicate EndsAs(s: State, s': State, report: Report, workspace: Id, transport: string, secret: string, nonce: nat) {
    var (before, after) := (PlatformConnections(s, workspace, transport), PlatformConnections(s', workspace, transport));
    && after != {} && (before != {} ==> after == before) && (before == {} ==> Only(after) !in s.connections)
    && report.transport == transport && report.connection == Only(after)
    && (s'.connections[Only(after)], report.status) == Outcome(s, workspace, transport, secret, nonce)
  }

  lemma TransportEnds(s: State, workspace: Id, transport: string, secret: string, nonce: nat, catalog: Catalog)
    requires Tidy(s) && ProvisionOne(s, workspace, transport, secret, nonce, catalog).Ok?
    ensures var (s1, report) := ProvisionOne(s, workspace, transport, secret, nonce, catalog).value;
            EndsAs(s, s1, report, workspace, transport, secret, nonce)
  {
    hide Tidy, UpsertConnection, UpsertRoutes, PlatformConnections, RoutesOf, RouteSettled;
    var (s1, id, status) := UpsertConnection(s, workspace, transport, secret, nonce).value;
    if PlatformConnections(s, workspace, transport) == {} {
      NewConnection(s, workspace, transport, secret, nonce);
    } else {
      OldConnection(s, workspace, transport, secret, nonce);
    }
    var engines := EnginesFor(catalog, transport);
    RoutesUpsert(s1, id, workspace, transport, engines, catalog, []);
    SameConnections(s1, UpsertRoutes(s1, id, workspace, transport, engines, catalog));
  }

  lemma EndsSurvives(s: State, s1: State, s': State, report: Report, workspace: Id, transport: string, secret: string,
                     nonce: nat, rest: seq<string>)
    requires EndsAs(s, s1, report, workspace, transport, secret, nonce)
    requires OnlyTransports(s1, s', workspace, rest) && transport !in rest
    ensures EndsAs(s, s', report, workspace, transport, secret, nonce)
  {
  }

  lemma EndsFromEarlier(s: State, s1: State, s': State, report: Report, workspace: Id, changed: string, transport: string,
                        secret: string, nonce: nat)
    requires OnlyTransport(s, s1, workspace, changed) && transport != changed
    requires EndsAs(s1, s', report, workspace, transport, secret, nonce)
    ensures EndsAs(s, s', report, workspace, transport, secret, nonce)
  {
  }

  /** Every supplied transport ends as its own outcome from the rows before the run. */
  lemma {:induction false} RunEnds(s: State, workspace: Id, todo: seq<string>, credentials: Credentials, catalog: Catalog)
    requires Tidy(s) && Ordering.NoDuplicates(todo) && forall t :: t in todo ==> t in credentials
    requires ProvisionAll(s, workspace, todo, credentials, catalog).Ok?
    ensures var (s', reports) := ProvisionAll(s, workspace, todo, credentials, catalog).value;
            |reports| == |todo|
            && forall i :: 0 <= i < |todo| ==>
                 EndsAs(s, s', reports[i], workspace, todo[i], credentials[todo[i]].0, credentials[todo[i]].1)
    decreases |todo|
  {
    hide Tidy, ProvisionOne, OnlyTransport, OnlyTransports, Settled, PlatformConnections, EndsAs, Confirmed, Confirmations;
    if todo != [] {
      var t, rest := todo[0], todo[1..];
      assert forall i :: 0 <= i < |rest| ==> rest[i] == todo[i + 1];
      TransportRun(s, workspace, t, credentials[t].0, credentials[t].1, catalog);
      TransportEnds(s, workspace, t, credentials[t].0, credentials[t].1, catalog);
      var (s1, report) := ProvisionOne(s, workspace, t, credentials[t].0, credentials[t].1, catalog).value;
      RunSettles(s1, workspace, rest, credentials, catalog);
      RunEnds(s1, workspace, rest, credentials, catalog);
      var (s', later) := ProvisionAll(s1, workspace, rest, credentials, catalog).value;
      EndsSurvives(s, s1, s', report, workspace, t, credentials[t].0, credentials[t].1, rest);
      forall i | 0 < i < |todo|
        ensures EndsAs(s, s', later[i - 1], workspace, todo[i], credentials[todo[i]].0, credentials[todo[i]].1) {
        EndsFromEarlier(s, s1, s', later[i - 1], workspace, t, todo[i], credentials[todo[i]].0, credentials[todo[i]].1);
      }
    }
  }

  /** What an accepted run stores and reports for each supplied transport: the row is created, or kept, or has only
      its key replaced and its pause cleared; reports come in transport order. */
  lemma RunReplacesOnlySecrets(s: State, credentials: Credentials, catalog: Catalog)
    requires Tidy(s) && Provision(s, true, credentials, catalog).Ok?
    ensures var (s', reports) := Provision(s, true, credentials, catalog).value;
            var todo := Ordering.SortedStrings(credentials.Keys);
            |reports| == |todo|
            && forall i :: 0 <= i < |todo| ==>
                 EndsAs(Loaded(s), s', reports[i], SystemWorkspace(s), todo[i], credentials[todo[i]].0, credentials[todo[i]].1)
  {
    hide Tidy, ProvisionAll, EndsAs;
    LoadingIsHarmless(s);
    Ordering.SortedStringsDistinct(credentials.Keys);
    RunEnds(Loaded(s), SystemWorkspace(s), Ordering.SortedStrings(credentials.Keys), credentials, catalog);
  }

  /** Connections and routes of anyone else are exactly as before, and every new row is of a supplied transport. */
  lemma RunLeavesOthersAlone(s: State, credentials: Credentials, catalog: Catalog)
    requires Tidy(s) && Provision(s, true, credentials, catalog).Ok?
    ensures var s' := Provision(s, true, credentials, catalog).value.0;
            Tidy(s') && s'.system == Some(SystemWorkspace(s))
            && OnlyTransports(Loaded(s), s', SystemWorkspace(s), Ordering.SortedStrings(credentials.Keys))
  {
    hide Tidy, Provision, OnlyTransports;
    RunOutcome(s, credentials, catalog);
  }

  // ----- When a run is accepted -----

  ghost predicate Acceptable(s: State, workspace: Id, transports: seq<string>, credentials: Credentials)
    requires forall t :: t in transports ==> t in credentials
  {
    forall t :: t in transports ==> !Blank(credentials[t].0) && !Unreadable(s, workspace, t)
  }

  lemma OneAccepted(s: State, workspace: Id, transport: string, secret: string, nonce: nat, catalog: Catalog)
    ensures ProvisionOne(s, workspace, transport, secret, nonce, catalog).Ok?
       <==> !Blank(secret) && !Unreadable(s, workspace, transport)
  {
    hide UpsertRoutes, Blank;
  }

  lemma UnreadableStays(s: State, s1: State, workspace: Id, changed: string, transport: string)
    requires OnlyTransport(s, s1, workspace, changed) && transport != changed
    ensures Unreadable(s1, workspace, transport) <==> Unreadable(s, workspace, transport)
  {
  }

  lemma {:induction false} AllAccepted(s: State, workspace: Id, todo: seq<string>, credentials: Credentials, catalog: Catalog)
    requires Tidy(s) && Ordering.NoDuplicates(todo) && forall t :: t in todo ==> t in credentials
    ensures ProvisionAll(s, workspace, todo, credentials, catalog).Ok? <==> Acceptable(s, workspace, todo, credentials)
    decreases |todo|
  {
    hide Tidy, ProvisionOne, OnlyTransport, Settled, PlatformConnections, Unreadable, Blank;
    if todo != [] {
      var t, rest := todo[0], todo[1..];
      assert todo == [t] + rest;
      assert forall i :: 0 <= i < |rest| ==> rest[i] == todo[i + 1];
      OneAccepted(s, workspace, t, credentials[t].0, credentials[t].1, catalog);
      if ProvisionOne(s, workspace, t, credentials[t].0, credentials[t].1, catalog).Ok? {
        TransportRun(s, workspace, t, credentials[t].0, credentials[t].1, catalog);
        var s1 := ProvisionOne(s, workspace, t, credentials[t].0, credentials[t].1, catalog).value.0;
        AllAccepted(s1, workspace, rest, credentials, catalog);
        forall u | u in rest ensures Unreadable(s1, workspace, u) <==> Unreadable(s, workspace, u) {
          UnreadableStays(s, s1, workspace, t, u);
        }
        AcceptableLater(s, s1, workspace, todo, credentials);
      }
    }
  }

  lemma AcceptableLater(s: State, s1: State, workspace: Id, todo: seq<string>, credentials: Credentials)
    requires todo != [] && forall t :: t in todo ==> t in credentials
    requires !Blank(credentials[todo[0]].0) && !Unreadable(s, workspace, todo[0])
    requires forall u :: u in todo[1..] ==> (Unreadable(s1, workspace, u) <==> Unreadable(s, workspace, u))
    ensures Acceptable(s, workspace, todo, credentials) <==> Acceptable(s1, workspace, todo[1..], credentials)
  {
  }

  /** A run goes through exactly when encryption is configured, every transport is known, no secret is blank,
      and no stored key of a supplied transport fails to decrypt, not even one about to be replaced. */
  lemma RunAcceptedIff(s: State, keyConfigured: bool, credentials: Credentials, catalog: Catalog)
    requires Tidy(s)
    ensures Provision(s, keyConfigured, credentials, catalog).Ok?
       <==> keyConfigured && credentials.Keys <= catalog.transports
            && (forall t :: t in credentials ==> !Blank(credentials[t].0) && !Unreadable(Loaded(s), SystemWorkspace(s), t))
  {
    hide Tidy, ProvisionAll, Unreadable, Blank;
    LoadingIsHarmless(s);
    var todo := Ordering.SortedStrings(credentials.Keys);
    Ordering.SortedStringsDistinct(credentials.Keys);
    AllAccepted(Loaded(s), SystemWorkspace(s), todo, credentials, catalog);
    var unknown := Ordering.SortedStrings(credentials.Keys - catalog.transports);
    assert unknown == [] <==> credentials.Keys <= catalog.transports by {
      if unknown == [] {
        forall t | t in credentials.Keys ensures t in catalog.transports { assert t !in unknown; }
      } else {
        assert unknown[0] in unknown;
      }
    }
  }
}
