/** What a provisioning run leaves in each route, and why a run is refused. */
module ProvisioningOutcomes {
  import opened Options
  import opened Provisioning
  import opened ProvisioningConvergence
  import Normalization
  import Ordering

  // ----- Routes -----

  /** A transport's route for one engine: the row there was, with the measured model and enabled as the default, or else
      a new row with just that. */
  ghost predicate RouteEndsAs(s: State, s': State, connection: Id, workspace: Id, transport: string, engine: string, model: string) {
    var (before, after) := (RoutesOf(s, connection, engine), RoutesOf(s', connection, engine));
    && after != {}
    && (before != {} ==>
          after == before
          && s'.routes[Only(after)] == s.routes[Only(before)].(model := model, isDefault := true, active := true))
    && (before == {} ==>
          Only(after) !in s.routes
          && s'.routes[Only(after)] == Route(workspace, connection, engine, transport, model, true, true))
  }

  lemma OneRouteEnds(s: State, connection: Id, workspace: Id, transport: string, engine: string, model: string)
    requires Tidy(s) && connection in s.connections
    ensures RouteEndsAs(s, UpsertRoute(s, connection, workspace, transport, engine, model),
                        connection, workspace, transport, engine, model)
  {
    hide Tidy;
    if RoutesOf(s, connection, engine) == {} {
      NewRoute(s, connection, workspace, transport, engine, model);
    } else {
      OldRoute(s, connection, workspace, transport, engine, model);
    }
  }

  /** Upserting a route again, or another engine's, leaves it as it ended. */
  lemma RouteStays(s: State, s1: State, connection: Id, workspace: Id, transport: string, engine: string, model: string, next: string,
                   nextModel: string)
    requires Tidy(s1) && connection in s1.connections
    requires RouteEndsAs(s, s1, connection, workspace, transport, engine, model)
    requires next == engine ==> nextModel == model
    ensures RouteEndsAs(s, UpsertRoute(s1, connection, workspace, transport, next, nextModel),
                        connection, workspace, transport, engine, model)
  {
    hide Tidy;
    var found := RoutesOf(s1, connection, engine);
    assert Only(found) in found;
    if next == engine {
      assert RouteSettled(s1, connection, engine, model);
      RouteUpsertIsIdentity(s1, connection, workspace, transport, engine, model);
    } else {
      RouteUpsert(s1, connection, workspace, transport, next, nextModel);
    }
  }

  lemma {:induction false} RouteStaysThrough(s: State, s1: State, connection: Id, workspace: Id, transport: string, engine: string,
                                             engines: seq<string>, catalog: Catalog)
    requires Tidy(s1) && connection in s1.connections
    requires RouteEndsAs(s, s1, connection, workspace, transport, engine, ModelFor(catalog, engine))
    ensures RouteEndsAs(s, UpsertRoutes(s1, connection, workspace, transport, engines, catalog),
                        connection, workspace, transport, engine, ModelFor(catalog, engine))
    decreases |engines|
  {
    hide Tidy, UpsertRoute, RouteEndsAs, RoutesOf, RouteSettled;
    if engines != [] {
      var e := engines[0];
      var s2 := UpsertRoute(s1, connection, workspace, transport, e, ModelFor(catalog, e));
      RouteStays(s, s1, connection, workspace, transport, engine, ModelFor(catalog, engine), e, ModelFor(catalog, e));
      RouteUpsert(s1, connection, workspace, transport, e, ModelFor(catalog, e));
      RouteStaysThrough(s, s2, connection, workspace, transport, engine, engines[1..], catalog);
    }
  }

  /** An engine's route is the same after another engine's upsert. */
  lemma OtherRoute(s: State, connection: Id, workspace: Id, transport: string, engine: string, other: string, model: string)
    requires Tidy(s) && connection in s.connections && engine != other
    ensures var s1 := UpsertRoute(s, connection, workspace, transport, other, model);
            && RoutesOf(s1, connection, engine) == RoutesOf(s, connection, engine)
            && (forall r :: r in RoutesOf(s, connection, engine) ==> r in s1.routes && s1.routes[r] == s.routes[r])
  {
    hide Tidy;
    RouteUpsert(s, connection, workspace, transport, other, model);
  }

  /** Every engine listed ends so, and the routes of engines not listed are as they were. */
  lemma {:induction false} RoutesEnd(s: State, connection: Id, workspace: Id, transport: string, engines: seq<string>,
                                     catalog: Catalog, engine: string)
    requires Tidy(s) && connection in s.connections
    ensures var s' := UpsertRoutes(s, connection, workspace, transport, engines, catalog);
            if engine in engines then RouteEndsAs(s, s', connection, workspace, transport, engine, ModelFor(catalog, engine))
            else
              && RoutesOf(s', connection, engine) == RoutesOf(s, connection, engine)
              && forall r :: r in RoutesOf(s, connection, engine) ==> r in s'.routes && s'.routes[r] == s.routes[r]
    decreases |engines|
  {
    hide Tidy, UpsertRoute, RouteSettled;
    if engines != [] {
      var e := engines[0];
      var s1 := UpsertRoute(s, connection, workspace, transport, e, ModelFor(catalog, e));
      assert engines == [e] + engines[1..];
      RouteUpsert(s, connection, workspace, transport, e, ModelFor(catalog, e));
      if e == engine {
        hide RouteEndsAs, RoutesOf;
        OneRouteEnds(s, connection, workspace, transport, e, ModelFor(catalog, e));
        RouteStaysThrough(s, s1, connection, workspace, transport, engine, engines[1..], catalog);
      } else {
        OtherRoute(s, connection, workspace, transport, engine, e, ModelFor(catalog, e));
        RoutesEnd(s1, connection, workspace, transport, engines[1..], catalog, engine);
        if engine in engines[1..] {
          EndsFromBefore(s, s1, UpsertRoutes(s1, connection, workspace, transport, engines[1..], catalog),
                         connection, workspace, transport, engine, ModelFor(catalog, engine));
        }
      }
    }
  }

  lemma EndsFromBefore(s: State, s1: State, s': State, connection: Id, workspace: Id, transport: string, engine: string, model: string)
    requires RouteEndsAs(s1, s', connection, workspace, transport, engine, model)
    requires RoutesOf(s1, connection, engine) == RoutesOf(s, connection, engine)
    requires forall r :: r in RoutesOf(s, connection, engine) ==> r in s1.routes && s1.routes[r] == s.routes[r]
    requires forall r :: r in s.routes ==> r in s1.routes
    ensures RouteEndsAs(s, s', connection, workspace, transport, engine, model)
  {
    var before := RoutesOf(s, connection, engine);
    if before != {} { assert Only(before) in before; }
  }

  /** All the routes of one connection: those of the transport's engines end as they should, any others are as they were. */
  ghost predicate RoutesEndAs(s: State, s': State, connection: Id, workspace: Id, transport: string, catalog: Catalog) {
    forall engine ::
      if engine in EnginesFor(catalog, transport) then
        RouteEndsAs(s, s', connection, workspace, transport, engine, ModelFor(catalog, engine))
      else
        SameRoutesOf(s, s', connection, engine)
  }

  ghost predicate SameRoutesOf(s: State, s': State, connection: Id, engine: string) {
    && RoutesOf(s', connection, engine) == RoutesOf(s, connection, engine)
    && forall r :: r in RoutesOf(s, connection, engine) ==> r in s'.routes && s'.routes[r] == s.routes[r]
  }

  /** The routes are the same before, or the same after. */
  lemma RoutesEndFrom(s: State, s1: State, s': State, connection: Id, workspace: Id, transport: string, catalog: Catalog)
    requires forall engine :: SameRoutesOf(s, s1, connection, engine)
    requires forall r :: r in s.routes ==> r in s1.routes
    requires RoutesEndAs(s1, s', connection, workspace, transport, catalog)
    ensures RoutesEndAs(s, s', connection, workspace, transport, catalog)
  {
    hide RouteEndsAs, RoutesOf;
    forall engine
      ensures if engine in EnginesFor(catalog, transport) then
                RouteEndsAs(s, s', connection, workspace, transport, engine, ModelFor(catalog, engine))
              else SameRoutesOf(s, s', connection, engine)
    {
      assert SameRoutesOf(s, s1, connection, engine);
      if engine in EnginesFor(catalog, transport) {
        EndsFromBefore(s, s1, s', connection, workspace, transport, engine, ModelFor(catalog, engine));
      } else {
        assert SameRoutesOf(s1, s', connection, engine);
      }
    }
  }

  lemma RoutesEndStill(s: State, s1: State, s': State, connection: Id, workspace: Id, transport: string, catalog: Catalog)
    requires RoutesEndAs(s, s1, connection, workspace, transport, catalog)
    requires forall engine :: SameRoutesOf(s1, s', connection, engine)
    ensures RoutesEndAs(s, s', connection, workspace, transport, catalog)
  {
    forall engine
      ensures if engine in EnginesFor(catalog, transport) then
                RouteEndsAs(s, s', connection, workspace, transport, engine, ModelFor(catalog, engine))
              else SameRoutesOf(s, s', connection, engine)
    {
      assert SameRoutesOf(s1, s', connection, engine);
      StillEnds(s, s1, s', connection, workspace, transport, engine, catalog);
    }
  }

  lemma StillEnds(s: State, s1: State, s': State, connection: Id, workspace: Id, transport: string, engine: string, catalog: Catalog)
    requires SameRoutesOf(s1, s', connection, engine)
    ensures RouteEndsAs(s, s1, connection, workspace, transport, engine, ModelFor(catalog, engine)) ==>
              RouteEndsAs(s, s', connection, workspace, transport, engine, ModelFor(catalog, engine))
    ensures SameRoutesOf(s, s1, connection, engine) ==> SameRoutesOf(s, s', connection, engine)
  {
    var found := RoutesOf(s1, connection, engine);
    if found != {} { assert Only(found) in found; }
  }

  lemma TransportRoutes(s: State, workspace: Id, transport: string, secret: string, nonce: nat, catalog: Catalog)
    requires Tidy(s) && ProvisionOne(s, workspace, transport, secret, nonce, catalog).Ok?
    ensures var (s', report) := ProvisionOne(s, workspace, transport, secret, nonce, catalog).value;
            RoutesEndAs(s, s', report.connection, workspace, transport, catalog)
  {
    hide Tidy, UpsertConnection, UpsertRoutes, PlatformConnections, RouteEndsAs, RoutesOf;
    var (s1, id, status) := UpsertConnection(s, workspace, transport, secret, nonce).value;
    ConnectionUpsert(s, workspace, transport, secret, nonce);
    var s2 := UpsertRoutes(s1, id, workspace, transport, EnginesFor(catalog, transport), catalog);
    forall engine { RoutesEnd(s1, id, workspace, transport, EnginesFor(catalog, transport), catalog, engine); }
    assert RoutesEndAs(s1, s2, id, workspace, transport, catalog);
    SameRoutes(s, s1);
    forall engine ensures SameRoutesOf(s, s1, id, engine) { InRoutes(s, id, engine); }
    RoutesEndFrom(s, s1, s2, id, workspace, transport, catalog);
  }

  lemma InRoutes(s: State, connection: Id, engine: string)
    ensures forall r :: r in RoutesOf(s, connection, engine) ==> r in s.routes && s.routes[r].connection == connection
  {
  }

  /** A connection that is not there has no routes. */
  lemma NoRoutes(s: State, connection: Id, engine: string)
    requires Tidy(s) && connection !in s.connections
    ensures RoutesOf(s, connection, engine) == {}
  {
  }

  /** The routes of another transport's connection are the same after one transport's run. */
  lemma OtherTransportsRoutes(s: State, s1: State, workspace: Id, changed: string, transport: string, connection: Id)
    requires Tidy(s) && Tidy(s1) && OnlyTransport(s, s1, workspace, changed) && transport != changed
    requires connection in PlatformConnections(s, workspace, transport) || connection !in s1.connections
    ensures forall engine :: SameRoutesOf(s, s1, connection, engine)
  {
    hide Tidy;
    forall engine ensures SameRoutesOf(s, s1, connection, engine) {
      InRoutes(s, connection, engine);
      if connection !in s1.connections {
        NoRoutes(s, connection, engine);
        NoRoutes(s1, connection, engine);
      }
    }
  }

  /** The routes of every supplied transport end as they should. */
  lemma {:induction false} RunRoutes(s: State, workspace: Id, todo: seq<string>, credentials: Credentials, catalog: Catalog, i: nat)
    requires Tidy(s) && Ordering.NoDuplicates(todo) && forall t :: t in todo ==> t in credentials
    requires ProvisionAll(s, workspace, todo, credentials, catalog).Ok? && i < |todo|
    ensures var (s', reports) := ProvisionAll(s, workspace, todo, credentials, catalog).value;
            && |reports| == |todo|
            && RoutesEndAs(s, s', reports[i].connection, workspace, todo[i], catalog)
    decreases |todo|
  {
    hide Tidy, ProvisionOne, OnlyTransport, OnlyTransports, Settled, PlatformConnections, Confirmed, Confirmations, RoutesEndAs,
      Outcome, SameRoutesOf, RoutesOf;
    var t, rest := todo[0], todo[1..];
    assert forall k :: 0 <= k < |rest| ==> rest[k] == todo[k + 1];
    TransportRun(s, workspace, t, credentials[t].0, credentials[t].1, catalog);
    var (s1, report) := ProvisionOne(s, workspace, t, credentials[t].0, credentials[t].1, catalog).value;
    var (s', later) := ProvisionAll(s1, workspace, rest, credentials, catalog).value;
    RunEnds(s1, workspace, rest, credentials, catalog);
    RunSettles(s1, workspace, rest, credentials, catalog);
    if i == 0 {
      TransportRoutes(s, workspace, t, credentials[t].0, credentials[t].1, catalog);
      RoutesSurvive(s1, s', workspace, t, rest, report.connection);
      RoutesEndStill(s, s1, s', report.connection, workspace, t, catalog);
    } else {
      RunRoutes(s1, workspace, rest, credentials, catalog, i - 1);
      var id := later[i - 1].connection;
      assert EndsAs(s1, s', later[i - 1], workspace, rest[i - 1], credentials[rest[i - 1]].0, credentials[rest[i - 1]].1);
      PlacedBefore(s, s1, s', later[i - 1], workspace, t, rest[i - 1], credentials[rest[i - 1]].0, credentials[rest[i - 1]].1);
      OtherTransportsRoutes(s, s1, workspace, t, rest[i - 1], id);
      KeptRows(s, s1, workspace, t);
      RoutesEndFrom(s, s1, s', id, workspace, rest[i - 1], catalog);
    }
  }

  lemma KeptRows(s: State, s1: State, workspace: Id, transport: string)
    requires OnlyTransport(s, s1, workspace, transport)
    ensures forall r :: r in s.routes ==> r in s1.routes
  {
  }

  lemma PlacedBefore(s: State, s1: State, s': State, report: Report, workspace: Id, changed: string, transport: string,
                     secret: string, nonce: nat)
    requires OnlyTransport(s, s1, workspace, changed) && transport != changed
    requires EndsAs(s1, s', report, workspace, transport, secret, nonce)
    ensures report.connection in PlatformConnections(s, workspace, transport) || report.connection !in s1.connections
  {
    hide Outcome, PlatformConnections;
    assert PlatformConnections(s1, workspace, transport) == PlatformConnections(s, workspace, transport);
  }

  lemma RoutesSurvive(s: State, s': State, workspace: Id, transport: string, rest: seq<string>, connection: Id)
    requires OnlyTransports(s, s', workspace, rest) && transport !in rest
    requires PlatformConnections(s, workspace, transport) != {}
    requires connection == Only(PlatformConnections(s, workspace, transport))
    ensures forall engine :: SameRoutesOf(s, s', connection, engine)
  {
    hide OnlyTransports, PlatformConnections;
    RowsSurvive(s, s', workspace, transport, rest);
    forall engine ensures SameRoutesOf(s, s', connection, engine) { InRoutes(s, connection, engine); }
  }

  /** What an accepted run leaves in the routes of every supplied transport's connection, by the catalog. */
  lemma RunRoutesEnd(s: State, credentials: Credentials, catalog: Catalog, i: nat, engine: string)
    requires Tidy(s) && Provision(s, true, credentials, catalog).Ok? && i < |Ordering.SortedStrings(credentials.Keys)|
    ensures var (s', reports) := Provision(s, true, credentials, catalog).value;
            var t := Ordering.SortedStrings(credentials.Keys)[i];
            && i < |reports|
            && if t in catalog.engines && engine in catalog.engines[t] then
                 RouteEndsAs(Loaded(s), s', reports[i].connection, SystemWorkspace(s), t, engine,
                             if engine in catalog.models then catalog.models[engine] else "")
               else SameRoutesOf(Loaded(s), s', reports[i].connection, engine)
  {
    hide Tidy, ProvisionAll, RouteEndsAs, SameRoutesOf;
    LoadingIsHarmless(s);
    Ordering.SortedStringsDistinct(credentials.Keys);
    RunRoutes(Loaded(s), SystemWorkspace(s), Ordering.SortedStrings(credentials.Keys), credentials, catalog, i);
    RoutesEndOne(Loaded(s), Provision(s, true, credentials, catalog).value.0,
                 Provision(s, true, credentials, catalog).value.1[i].connection, SystemWorkspace(s),
                 Ordering.SortedStrings(credentials.Keys)[i], catalog, engine);
  }

  lemma RoutesEndOne(s: State, s': State, connection: Id, workspace: Id, transport: string, catalog: Catalog, engine: string)
    requires RoutesEndAs(s, s', connection, workspace, transport, catalog)
    ensures if transport in catalog.engines && engine in catalog.engines[transport] then
              RouteEndsAs(s, s', connection, workspace, transport, engine,
                          if engine in catalog.models then catalog.models[engine] else "")
            else SameRoutesOf(s, s', connection, engine)
  {
    hide RouteEndsAs, RoutesOf;
    assert if engine in EnginesFor(catalog, transport) then
             RouteEndsAs(s, s', connection, workspace, transport, engine, ModelFor(catalog, engine))
           else SameRoutesOf(s, s', connection, engine);
  }

  // ----- Refusals -----

  /** A credential is blank when it is all white space. */
  lemma BlankIff(secret: string)
    ensures Blank(secret) <==> forall k :: 0 <= k < |secret| ==> Normalization.IsSpace(secret[k])
  {
    Normalization.StripEmptiesIff(secret);
  }

  /** The first transport in order that cannot be provisioned decides the refusal. */
  lemma {:induction false} FirstRefusal(s: State, workspace: Id, todo: seq<string>, credentials: Credentials, catalog: Catalog, i: nat)
    requires Tidy(s) && Ordering.NoDuplicates(todo) && i < |todo| && forall t :: t in todo ==> t in credentials
    requires forall j :: 0 <= j < i ==> !Blank(credentials[todo[j]].0) && !Unreadable(s, workspace, todo[j])
    requires Blank(credentials[todo[i]].0) || Unreadable(s, workspace, todo[i])
    ensures ProvisionAll(s, workspace, todo, credentials, catalog)
         == Refused(if Blank(credentials[todo[i]].0) then EmptyCredential(todo[i]) else InvalidToken)
    decreases |todo|
  {
    hide Tidy, OnlyTransport, Settled, Unreadable, Blank, UpsertRoutes, UpsertConnection;
    var t, rest := todo[0], todo[1..];
    OneAccepted(s, workspace, t, credentials[t].0, credentials[t].1, catalog);
    if i == 0 {
      OneRefused(s, workspace, t, credentials[t].0, credentials[t].1, catalog);
    } else {
      assert forall k :: 0 <= k < |rest| ==> rest[k] == todo[k + 1];
      TransportRun(s, workspace, t, credentials[t].0, credentials[t].1, catalog);
      var s1 := ProvisionOne(s, workspace, t, credentials[t].0, credentials[t].1, catalog).value.0;
      forall j | 0 < j <= i ensures Unreadable(s1, workspace, todo[j]) <==> Unreadable(s, workspace, todo[j]) {
        UnreadableStays(s, s1, workspace, t, todo[j]);
      }
      FirstRefusal(s1, workspace, rest, credentials, catalog, i - 1);
    }
  }

  lemma OneRefused(s: State, workspace: Id, transport: string, secret: string, nonce: nat, catalog: Catalog)
    requires Blank(secret) || Unreadable(s, workspace, transport)
    ensures ProvisionOne(s, workspace, transport, secret, nonce, catalog)
         == Refused(if Blank(secret) then EmptyCredential(transport) else InvalidToken)
  {
    hide Blank, UpsertRoutes;
  }

  /** Why a run is refused: first the missing encryption key, then the transports nobody knows, all of them in order,
      then the first transport in order whose credential is blank or whose stored key does not decrypt. */
  lemma RefusalIs(s: State, keyConfigured: bool, credentials: Credentials, catalog: Catalog)
    requires Tidy(s)
    ensures !keyConfigured ==> Provision(s, keyConfigured, credentials, catalog) == Refused(KeyMissing)
    ensures keyConfigured && !(credentials.Keys <= catalog.transports) ==>
              Provision(s, keyConfigured, credentials, catalog)
              == Refused(UnknownTransports(Ordering.SortedStrings(set t | t in credentials && t !in catalog.transports)))
    ensures var todo := Ordering.SortedStrings(credentials.Keys);
            keyConfigured && credentials.Keys <= catalog.transports ==>
              forall i: nat :: FirstStopped(s, credentials, todo, i) ==>
                Provision(s, keyConfigured, credentials, catalog)
                == Refused(if Blank(credentials[todo[i]].0) then EmptyCredential(todo[i]) else InvalidToken)
  {
    hide Tidy, ProvisionAll, CannotProvision, Loaded, SystemWorkspace, LoadSystem, Ordering.SortedStrings;
    assert credentials.Keys - catalog.transports == set t | t in credentials && t !in catalog.transports;
    UnknownIff(credentials.Keys, catalog.transports);
    var todo := Ordering.SortedStrings(credentials.Keys);
    if keyConfigured && credentials.Keys <= catalog.transports {
      forall i: nat | FirstStopped(s, credentials, todo, i)
        ensures Provision(s, keyConfigured, credentials, catalog)
             == Refused(if Blank(credentials[todo[i]].0) then EmptyCredential(todo[i]) else InvalidToken)
      {
        StoppedRun(s, credentials, catalog, i);
      }
    }
  }

  lemma StoppedRun(s: State, credentials: Credentials, catalog: Catalog, i: nat)
    requires Tidy(s) && credentials.Keys <= catalog.transports
    requires FirstStopped(s, credentials, Ordering.SortedStrings(credentials.Keys), i)
    ensures var t := Ordering.SortedStrings(credentials.Keys)[i];
            Provision(s, true, credentials, catalog)
            == Refused(if Blank(credentials[t].0) then EmptyCredential(t) else InvalidToken)
  {
    hide Tidy, ProvisionAll, Unreadable, Blank;
    LoadingIsHarmless(s);
    Ordering.SortedStringsDistinct(credentials.Keys);
    UnknownIff(credentials.Keys, catalog.transports);
    FirstRefusal(Loaded(s), SystemWorkspace(s), Ordering.SortedStrings(credentials.Keys), credentials, catalog, i);
  }

  predicate CannotProvision(s: State, credentials: Credentials, transport: string) {
    transport in credentials
    && (Blank(credentials[transport].0) || Unreadable(Loaded(s), SystemWorkspace(s), transport))
  }

  /** The first in the list that cannot be provisioned. */
  predicate FirstStopped(s: State, credentials: Credentials, todo: seq<string>, i: nat) {
    i < |todo| && CannotProvision(s, credentials, todo[i])
    && forall j :: 0 <= j < i ==> !CannotProvision(s, credentials, todo[j])
  }

  lemma UnknownIff(names: set<string>, known: set<string>)
    ensures Ordering.SortedStrings(names - known) == [] <==> names <= known
  {
    var unknown := Ordering.SortedStrings(names - known);
    if unknown == [] {
      forall t | t in names ensures t in known { assert t !in unknown; }
    } else {
      assert unknown[0] in unknown;
    }
  }
}
