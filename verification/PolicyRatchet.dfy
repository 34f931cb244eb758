/** The limit check of the complexity policy, and the ratchet that forbids relaxing it. */
module PolicyRatchet {
  import opened Options
  import opened PolicyDocument
  import Ordering

  datatype Module = Module(loc: int, functions: map<string, int>)

  /** Measured code: repository path to module. */
  type Measurements = map<string, Module>

  // ----- Ceilings -----

  function Ceiling(exceptions: map<string, int>, name: string, default: int): int {
    if name in exceptions then exceptions[name] else default
  }

  function ModuleCeiling(p: Policy, path: string): int {
    Ceiling(p.modules, path, p.defaults.maxModuleLoc)
  }

  function FunctionCeiling(p: Policy, key: string): int {
    Ceiling(p.functions, key, p.defaults.maxFunctionCc)
  }

  function FunctionKey(path: string, name: string): string {
    path + "::" + name
  }

  // ----- The limit check -----

  datatype LimitFailure =
    | TooLong(path: string, loc: int, ceiling: int)
    | TooComplex(path: string, name: string, complexity: int, ceiling: int)

  predicate Exceeds(m: Measurements, p: Policy, f: LimitFailure) {
    match f
    case TooLong(path, loc, ceiling) =>
      path in m && loc == m[path].loc && ceiling == ModuleCeiling(p, path) && loc > ceiling
    case TooComplex(path, name, complexity, ceiling) =>
      && path in m && name in m[path].functions && complexity == m[path].functions[name]
      && ceiling == FunctionCeiling(p, FunctionKey(path, name)) && complexity > ceiling
  }

  predicate WithinLimits(m: Measurements, p: Policy) {
    forall path :: path in m ==>
      && m[path].loc <= ModuleCeiling(p, path)
      && forall name :: name in m[path].functions ==>
           m[path].functions[name] <= FunctionCeiling(p, FunctionKey(path, name))
  }

  /** The failures of one module, appended after its length check. */
  method FunctionFailures(m: Measurements, p: Policy, path: string, before: seq<LimitFailure>)
    returns (failures: seq<LimitFailure>)
    requires path in m
    ensures forall f :: f in failures <==> f in before || (f.TooComplex? && f.path == path && Exceeds(m, p, f))
  {
    hide FunctionKey, Ceiling;
    failures := before;
    var names := Ordering.SortedStrings(m[path].functions.Keys);
    for i := 0 to |names|
      invariant forall f :: f in failures <==>
                  || f in before
                  || (f.TooComplex? && f.path == path && f.name in names[..i] && Exceeds(m, p, f))
    {
      var complexity := m[path].functions[names[i]];
      var ceiling := FunctionCeiling(p, FunctionKey(path, names[i]));
      if complexity > ceiling {
        failures := failures + [TooComplex(path, names[i], complexity, ceiling)];
      }
      assert names[..i + 1] == names[..i] + [names[i]];
    }
    assert names[..|names|] == names;
  }

  /** Lists every exceeded ceiling, and nothing else. */
  method LimitFailures(m: Measurements, p: Policy) returns (failures: seq<LimitFailure>)
    ensures forall f :: f in failures <==> Exceeds(m, p, f)
    ensures failures == [] <==> WithinLimits(m, p)
  {
    failures := [];
    var paths := Ordering.SortedStrings(m.Keys);
    for i := 0 to |paths|
      invariant forall f :: f in failures <==> f.path in paths[..i] && Exceeds(m, p, f)
    {
      var path := paths[i];
      assert paths[..i + 1] == paths[..i] + [path];
      var loc, ceiling := m[path].loc, ModuleCeiling(p, path);
      if loc > ceiling {
        failures := failures + [TooLong(path, loc, ceiling)];
      }
      failures := FunctionFailures(m, p, path, failures);
    }
    assert paths[..|paths|] == paths;
    NoFailuresIff(m, p, failures);
  }

  lemma NoFailuresIff(m: Measurements, p: Policy, failures: seq<LimitFailure>)
    requires forall f :: f in failures <==> Exceeds(m, p, f)
    ensures failures == [] <==> WithinLimits(m, p)
  {
    if failures != [] {
      assert Exceeds(m, p, failures[0]);
    } else {
      forall path | path in m ensures m[path].loc <= ModuleCeiling(p, path) {
        assert !Exceeds(m, p, TooLong(path, m[path].loc, ModuleCeiling(p, path)));
      }
      forall path, name | path in m && name in m[path].functions
        ensures m[path].functions[name] <= FunctionCeiling(p, FunctionKey(path, name))
      {
        assert !Exceeds(m, p, TooComplex(path, name, m[path].functions[name], FunctionCeiling(p, FunctionKey(path, name))));
      }
    }
  }

  // ----- Stale exceptions, and the whole check -----

  datatype Partition = NoSeparator | Parts(path: string, name: string)

  /** Where the first separator at or after `from` starts. */
  function SeparatorFrom(key: string, from: nat): Option<nat>
    decreases |key| - from
  {
    if from + 1 >= |key| then None
    else if key[from] == ':' && key[from + 1] == ':' then Some(from)
    else SeparatorFrom(key, from + 1)
  }

  predicate SeparatorAt(key: string, i: nat) {
    i + 1 < |key| && key[i] == ':' && key[i + 1] == ':'
  }

  lemma {:induction false} SeparatorIsFirst(key: string, from: nat)
    ensures var r := SeparatorFrom(key, from);
            && (r.Some? ==> from <= r.value && SeparatorAt(key, r.value))
            && forall i :: from <= i && (r.Some? ==> i < r.value) ==> !SeparatorAt(key, i)
    decreases |key| - from
  {
    if from + 1 < |key| { SeparatorIsFirst(key, from + 1); }
  }

  /** `key.partition("::")`, cutting at the first separator. */
  function SplitKey(key: string): (r: Partition)
    ensures r.NoSeparator? <==> forall i :: !SeparatorAt(key, i)
    ensures r.Parts? ==> key == FunctionKey(r.path, r.name) && forall i :: 0 <= i < |r.path| ==> !SeparatorAt(key, i)
  {
    SeparatorIsFirst(key, 0);
    match SeparatorFrom(key, 0)
    case None => NoSeparator
    case Some(i) => assert SeparatorAt(key, i); Parts(key[..i], key[i + 2..])
  }

  datatype StaleFailure =
    | MissingModule(path: string)
    | SlackModule(path: string)
    | MissingFunction(key: string)
    | SlackFunction(key: string)

  function StaleModule(m: Measurements, p: Policy, path: string): Option<StaleFailure> {
    if path !in m then Some(MissingModule(path))
    else if m[path].loc <= p.defaults.maxModuleLoc then Some(SlackModule(path))
    else None
  }

  function StaleFunction(m: Measurements, p: Policy, key: string): Option<StaleFailure> {
    var parts := SplitKey(key);
    if parts.NoSeparator? || parts.path !in m || parts.name !in m[parts.path].functions then Some(MissingFunction(key))
    else if m[parts.path].functions[parts.name] <= p.defaults.maxFunctionCc then Some(SlackFunction(key))
    else None
  }

  /** An exception of code that is not there, or is back within the default. */
  predicate IsStale(m: Measurements, p: Policy, f: StaleFailure) {
    match f
    case MissingModule(path) => path in p.modules && path !in m
    case SlackModule(path) => path in p.modules && path in m && m[path].loc <= p.defaults.maxModuleLoc
    case MissingFunction(key) => key in p.functions && !NamesFunction(m, key)
    case SlackFunction(key) =>
      key in p.functions && NamesFunction(m, key)
      && m[SplitKey(key).path].functions[SplitKey(key).name] <= p.defaults.maxFunctionCc
  }

  /** The key, cut at its first separator, names a measured function. */
  predicate NamesFunction(m: Measurements, key: string) {
    var parts := SplitKey(key);
    parts.Parts? && parts.path in m && parts.name in m[parts.path].functions
  }

  method StaleModules(m: Measurements, p: Policy) returns (failures: seq<StaleFailure>)
    ensures forall f :: f in failures <==> (f.MissingModule? || f.SlackModule?) && IsStale(m, p, f)
  {
    failures := [];
    var paths := Ordering.SortedStrings(p.modules.Keys);
    for i := 0 to |paths|
      invariant forall f :: f in failures <==>
                  (f.MissingModule? || f.SlackModule?) && f.path in paths[..i] && IsStale(m, p, f)
    {
      assert paths[..i + 1] == paths[..i] + [paths[i]];
      var stale := StaleModule(m, p, paths[i]);
      if stale.Some? { failures := failures + [stale.value]; }
    }
    assert paths[..|paths|] == paths;
  }

  method StaleFunctions(m: Measurements, p: Policy) returns (failures: seq<StaleFailure>)
    ensures forall f :: f in failures <==> (f.MissingFunction? || f.SlackFunction?) && IsStale(m, p, f)
  {
    hide SplitKey;
    failures := [];
    var keys := Ordering.SortedStrings(p.functions.Keys);
    for i := 0 to |keys|
      invariant forall f :: f in failures <==>
                  (f.MissingFunction? || f.SlackFunction?) && f.key in keys[..i] && IsStale(m, p, f)
    {
      assert keys[..i + 1] == keys[..i] + [keys[i]];
      var stale := StaleFunction(m, p, keys[i]);
      if stale.Some? { failures := failures + [stale.value]; }
    }
    assert keys[..|keys|] == keys;
  }

  method CheckMeasurements(m: Measurements, p: Policy) returns (limits: seq<LimitFailure>, stale: seq<StaleFailure>)
    ensures forall f :: f in limits <==> Exceeds(m, p, f)
    ensures forall f :: f in stale <==> IsStale(m, p, f)
    ensures limits == [] && stale == [] <==> Passes(m, p)
  {
    limits := LimitFailures(m, p);
    hide IsStale;
    var staleModules := StaleModules(m, p);
    var staleFunctions := StaleFunctions(m, p);
    stale := staleModules + staleFunctions;
    assert forall f :: f in stale <==> f in staleModules || f in staleFunctions;
    assert stale != [] ==> stale[0] in stale;
  }

  ghost predicate Passes(m: Measurements, p: Policy) {
    WithinLimits(m, p) && forall f :: !IsStale(m, p, f)
  }

  /** The key names a function above the default. */
  predicate Offends(m: Measurements, p: Policy, key: string) {
    NamesFunction(m, key) && m[SplitKey(key).path].functions[SplitKey(key).name] > p.defaults.maxFunctionCc
  }

  /** The check passes exactly when the code is within its limits, the module exceptions are exactly the modules above
      the default, and every function exception names a function above the default. */
  lemma PassesIff(m: Measurements, p: Policy)
    ensures Passes(m, p) <==>
              && WithinLimits(m, p)
              && p.modules.Keys == (set path | path in m && m[path].loc > p.defaults.maxModuleLoc)
              && forall key :: key in p.functions ==> Offends(m, p, key)
  {
    hide SplitKey;
    if Passes(m, p) {
      forall path ensures path in p.modules <==> path in m && m[path].loc > p.defaults.maxModuleLoc {
        assert !IsStale(m, p, MissingModule(path)) && !IsStale(m, p, SlackModule(path));
      }
      forall key | key in p.functions ensures Offends(m, p, key) {
        assert !IsStale(m, p, MissingFunction(key)) && !IsStale(m, p, SlackFunction(key));
      }
    }
  }

  /** When the check passes, the exceptions name exactly the code that is above the defaults. */
  lemma ExceptionsAreExactlyTheOffenders(m: Measurements, p: Policy)
    requires Passes(m, p)
    ensures p.modules.Keys == set path | path in m && m[path].loc > p.defaults.maxModuleLoc
    ensures forall key :: key in p.functions <==>
              exists path, name :: key == FunctionKey(path, name) && path in m && name in m[path].functions
                && m[path].functions[name] > p.defaults.maxFunctionCc
  {
    PassesIff(m, p);
  }

  /** No path holds the separator, or ends in half of one. */
  ghost predicate PlainPaths(m: Measurements) {
    forall path, i :: path in m && 0 <= i < |path| ==> !SeparatorAt(path + ":", i)
  }

  lemma PlainKeySplits(path: string, name: string)
    requires forall i :: 0 <= i < |path| ==> !SeparatorAt(path + ":", i)
    ensures SplitKey(FunctionKey(path, name)) == Parts(path, name)
  {
    var key := FunctionKey(path, name);
    var r := SplitKey(key);
    assert SeparatorAt(key, |path|);
    if |r.path| < |path| {
      assert SeparatorAt(key, |r.path|);
      assert SeparatorAt(path + ":", |r.path|);
      assert false;
    }
    assert key[..|path|] == path && key[|path| + 2..] == name;
    assert |r.path| == |path|;
    assert r.path == key[..|r.path|] && r.name == key[|r.path| + 2..];
  }

  /** Conversely, with paths that do not hold the separator: code within its limits, whose exceptions name exactly
      what is above the defaults, passes. */
  lemma ExactExceptionsPass(m: Measurements, p: Policy)
    requires PlainPaths(m) && WithinLimits(m, p)
    requires p.modules.Keys == set path | path in m && m[path].loc > p.defaults.maxModuleLoc
    requires forall key :: key in p.functions ==>
               exists path, name :: key == FunctionKey(path, name) && path in m && name in m[path].functions
                 && m[path].functions[name] > p.defaults.maxFunctionCc
    ensures Passes(m, p)
  {
    hide SplitKey;
    forall key | key in p.functions ensures Offends(m, p, key) {
      var path, name :| key == FunctionKey(path, name) && path in m && name in m[path].functions
                        && m[path].functions[name] > p.defaults.maxFunctionCc;
      PlainKeySplits(path, name);
    }
    PassesIff(m, p);
  }

  // ----- Comparing two revisions of the policy -----

  datatype Kind = Functions | Modules

  datatype DefaultName = MaxFunctionCc | MaxModuleLoc

  datatype Relaxation =
    | VersionChanged
    | RootsRemoved(removed: seq<string>)
    | DefaultIncreased(name: DefaultName, from: int, to: int)
    | NewException(kind: Kind, key: string)
    | ExceptionIncreased(kind: Kind, key: string, from: int, to: int)

  function Entries(p: Policy, kind: Kind): map<string, int> {
    match kind case Functions => p.functions case Modules => p.modules
  }

  function Default(p: Policy, name: DefaultName): int {
    match name case MaxFunctionCc => p.defaults.maxFunctionCc case MaxModuleLoc => p.defaults.maxModuleLoc
  }

  function RemovedRoots(base: Policy, current: Policy): set<string> {
    Ordering.Elements(base.roots) - Ordering.Elements(current.roots)
  }

  predicate IsRelaxation(base: Policy, current: Policy, f: Relaxation) {
    match f
    case VersionChanged => current.formatVersion != base.formatVersion
    case RootsRemoved(removed) =>
      RemovedRoots(base, current) != {} && removed == Ordering.SortedStrings(RemovedRoots(base, current))
    case DefaultIncreased(name, from, to) =>
      from == Default(base, name) && to == Default(current, name) && to > from
    case NewException(kind, key) =>
      key in Entries(current, kind) && key !in Entries(base, kind)
    case ExceptionIncreased(kind, key, from, to) =>
      && key in Entries(current, kind) && key in Entries(base, kind)
      && from == Entries(base, kind)[key] && to == Entries(current, kind)[key] && to > from
  }

  /** What an empty comparison means. */
  ghost predicate Accepts(base: Policy, current: Policy) {
    && current.formatVersion == base.formatVersion
    && Ordering.Elements(base.roots) <= Ordering.Elements(current.roots)
    && (forall name :: Default(current, name) <= Default(base, name))
    && (forall kind, key :: key in Entries(current, kind) ==>
          key in Entries(base, kind) && Entries(current, kind)[key] <= Entries(base, kind)[key])
  }

  method CompareEntries(base: Policy, current: Policy, kind: Kind, before: seq<Relaxation>)
    returns (failures: seq<Relaxation>)
    ensures forall f :: f in failures <==>
              || f in before
              || ((f.NewException? || f.ExceptionIncreased?) && f.kind == kind && IsRelaxation(base, current, f))
  {
    hide RemovedRoots;
    failures := before;
    var oldEntries, newEntries := Entries(base, kind), Entries(current, kind);
    var keys := Ordering.SortedStrings(newEntries.Keys);
    for i := 0 to |keys|
      invariant forall f :: f in failures <==>
                  || f in before
                  || (&& (f.NewException? || f.ExceptionIncreased?) && f.kind == kind && f.key in keys[..i]
                      && IsRelaxation(base, current, f))
    {
      var key := keys[i];
      assert keys[..i + 1] == keys[..i] + [key];
      if key !in oldEntries {
        failures := failures + [NewException(kind, key)];
      } else if newEntries[key] > oldEntries[key] {
        failures := failures + [ExceptionIncreased(kind, key, oldEntries[key], newEntries[key])];
      }
    }
    assert keys[..|keys|] == keys;
  }

  method CompareDefault(base: Policy, current: Policy, name: DefaultName, before: seq<Relaxation>)
    returns (failures: seq<Relaxation>)
    ensures forall f :: f in failures <==>
              f in before || (f.DefaultIncreased? && f.name == name && IsRelaxation(base, current, f))
  {
    failures := before;
    if Default(current, name) > Default(base, name) {
      failures := failures + [DefaultIncreased(name, Default(base, name), Default(current, name))];
    }
  }

  /** Lists every relaxation, and nothing else. */
  method ComparePolicies(base: Policy, current: Policy) returns (failures: seq<Relaxation>)
    ensures forall f :: f in failures <==> IsRelaxation(base, current, f)
    ensures failures == [] <==> Accepts(base, current)
  {
    failures := [];
    if current.formatVersion != base.formatVersion {
      failures := failures + [VersionChanged];
    }
    var removed := RemovedRoots(base, current);
    if removed != {} {
      failures := failures + [RootsRemoved(Ordering.SortedStrings(removed))];
    }
    failures := CompareDefault(base, current, MaxFunctionCc, failures);
    failures := CompareDefault(base, current, MaxModuleLoc, failures);
    failures := CompareEntries(base, current, Functions, failures);
    failures := CompareEntries(base, current, Modules, failures);
    NoRelaxationIff(base, current, failures);
  }

  lemma NoRelaxationIff(base: Policy, current: Policy, failures: seq<Relaxation>)
    requires forall f :: f in failures <==> IsRelaxation(base, current, f)
    ensures failures == [] <==> Accepts(base, current)
  {
    if failures != [] {
      assert IsRelaxation(base, current, failures[0]);
    } else {
      assert !IsRelaxation(base, current, VersionChanged);
      assert !IsRelaxation(base, current, RootsRemoved(Ordering.SortedStrings(RemovedRoots(base, current))));
      assert Ordering.Elements(base.roots) <= Ordering.Elements(current.roots) by {
        forall root | root in Ordering.Elements(base.roots) ensures root in Ordering.Elements(current.roots) {
          assert root !in RemovedRoots(base, current);
        }
      }
      forall name ensures Default(current, name) <= Default(base, name) {
        assert !IsRelaxation(base, current, DefaultIncreased(name, Default(base, name), Default(current, name)));
      }
      forall kind, key | key in Entries(current, kind)
        ensures key in Entries(base, kind) && Entries(current, kind)[key] <= Entries(base, kind)[key]
      {
        assert !IsRelaxation(base, current, NewException(kind, key));
        if key in Entries(base, kind) {
          assert !IsRelaxation(base, current,
                               ExceptionIncreased(kind, key, Entries(base, kind)[key], Entries(current, kind)[key]));
        }
      }
    }
  }

  // ----- The ratchet -----

  /** No code may grow: every ceiling of the new policy is at most the old one. */
  ghost predicate Tighter(base: Policy, current: Policy) {
    && (forall path :: ModuleCeiling(current, path) <= ModuleCeiling(base, path))
    && (forall key :: FunctionCeiling(current, key) <= FunctionCeiling(base, key))
  }

  /** No exception lies below the default it is an exception from. */
  ghost predicate ExceptionsReachDefaults(p: Policy) {
    && (forall path :: path in p.modules ==> p.modules[path] >= p.defaults.maxModuleLoc)
    && (forall key :: key in p.functions ==> p.functions[key] >= p.defaults.maxFunctionCc)
  }

  /** An accepted revision tightens every ceiling, including those whose exception was removed. */
  lemma AcceptedIsTighter(base: Policy, current: Policy)
    requires ExceptionsReachDefaults(base) && Accepts(base, current)
    ensures Tighter(base, current)
  {
    assert Default(current, MaxModuleLoc) <= Default(base, MaxModuleLoc);
    assert Default(current, MaxFunctionCc) <= Default(base, MaxFunctionCc);
    forall path ensures ModuleCeiling(current, path) <= ModuleCeiling(base, path) {
      assert path in current.modules ==> path in Entries(current, Modules);
    }
    forall key ensures FunctionCeiling(current, key) <= FunctionCeiling(base, key) {
      assert key in current.functions ==> key in Entries(current, Functions);
    }
  }

  /** A policy with all its exceptions removed. */
  function WithoutExceptions(p: Policy): Policy { p.(functions := map[], modules := map[]) }

  lemma RemovalIsAccepted(base: Policy)
    ensures Accepts(base, WithoutExceptions(base))
  {
  }

  /** When an exception lies below its default, removing it is accepted, and raises its ceiling. */
  lemma RemovalRaisesCeiling(base: Policy)
    requires !ExceptionsReachDefaults(base)
    ensures Accepts(base, WithoutExceptions(base)) && !Tighter(base, WithoutExceptions(base))
  {
    var current := WithoutExceptions(base);
    RemovalIsAccepted(base);
    if path :| path in base.modules && base.modules[path] < base.defaults.maxModuleLoc {
      assert ModuleCeiling(current, path) > ModuleCeiling(base, path);
    } else {
      var key :| key in base.functions && base.functions[key] < base.defaults.maxFunctionCc;
      assert FunctionCeiling(current, key) > FunctionCeiling(base, key);
    }
  }

  /** Whatever is accepted tightens every ceiling of a base if and only if no exception of the base lies below
      its default: what validation checks, and no more than it needs to. */
  lemma RatchetsIff(base: Policy)
    ensures (forall current :: Accepts(base, current) ==> Tighter(base, current)) <==> ExceptionsReachDefaults(base)
  {
    if ExceptionsReachDefaults(base) {
      forall current | Accepts(base, current) ensures Tighter(base, current) { AcceptedIsTighter(base, current); }
    } else {
      RemovalRaisesCeiling(base);
    }
  }

  /** A name that a finite set does not hold. */
  lemma {:induction false} FreshName(names: set<string>) returns (longer: string)
    ensures forall name :: name in names ==> |name| < |longer|
  {
    longer := "x";
    var rest := names;
    while rest != {}
      invariant rest <= names
      invariant forall name :: name in names && name !in rest ==> |name| < |longer|
      decreases rest
    {
      var name :| name in rest;
      longer := longer + name + "x";
      rest := rest - {name};
    }
  }

  /** Between valid policies the comparison accepts exactly the revisions that keep the version and the
      roots, name no new exception, and tighten every ceiling. */
  lemma AcceptsIff(base: Policy, current: Policy)
    requires ValidPolicy(base) && ValidPolicy(current)
    ensures Accepts(base, current) <==>
            && Tighter(base, current)
            && Ordering.Elements(base.roots) <= Ordering.Elements(current.roots)
            && current.functions.Keys <= base.functions.Keys
            && current.modules.Keys <= base.modules.Keys
  {
    if Accepts(base, current) {
      AcceptedIsTighter(base, current);
      forall key | key in current.functions ensures key in base.functions { assert key in Entries(current, Functions); }
      forall key | key in current.modules ensures key in base.modules { assert key in Entries(current, Modules); }
    } else if Tighter(base, current) && current.functions.Keys <= base.functions.Keys
              && current.modules.Keys <= base.modules.Keys {
      var path := FreshName(current.modules.Keys + base.modules.Keys);
      var key := FreshName(current.functions.Keys + base.functions.Keys);
      assert ModuleCeiling(current, path) <= ModuleCeiling(base, path);
      assert FunctionCeiling(current, key) <= FunctionCeiling(base, key);
      forall k, name | name in Entries(current, k)
        ensures name in Entries(base, k) && Entries(current, k)[name] <= Entries(base, k)[name]
      {
        assert k == Functions ==> FunctionCeiling(current, name) <= FunctionCeiling(base, name);
        assert k == Modules ==> ModuleCeiling(current, name) <= ModuleCeiling(base, name);
      }
    }
  }

  lemma AcceptsReflexive(p: Policy)
    ensures Accepts(p, p)
  {
  }

  lemma AcceptsTransitive(a: Policy, b: Policy, c: Policy)
    requires Accepts(a, b) && Accepts(b, c)
    ensures Accepts(a, c)
  {
  }

  /** Two policies that accept each other differ at most in the order of their roots. */
  lemma AcceptsAntisymmetric(a: Policy, b: Policy)
    requires Accepts(a, b) && Accepts(b, a)
    ensures a == b.(roots := a.roots) && Ordering.Elements(a.roots) == Ordering.Elements(b.roots)
  {
    assert Default(a, MaxModuleLoc) == Default(b, MaxModuleLoc);
    assert Default(a, MaxFunctionCc) == Default(b, MaxFunctionCc);
    forall key ensures key in a.functions <==> key in b.functions
               ensures key in a.functions ==> a.functions[key] == b.functions[key] {
      assert key in a.functions <==> key in Entries(a, Functions);
      assert key in b.functions <==> key in Entries(b, Functions);
    }
    forall key ensures key in a.modules <==> key in b.modules
               ensures key in a.modules ==> a.modules[key] == b.modules[key] {
      assert key in a.modules <==> key in Entries(a, Modules);
      assert key in b.modules <==> key in Entries(b, Modules);
    }
    assert a.functions == b.functions && a.modules == b.modules;
  }

  // ----- Whole histories -----

  /** A module is measured when it lies below one of the roots. */
  predicate Covered(path: string, roots: seq<string>) {
    exists root :: root in roots && root + "/" <= path
  }

  /** Measuring the code below a policy's roots. */
  function Collect(code: Measurements, roots: seq<string>): Measurements {
    map path | path in code && Covered(path, roots) :: code[path]
  }

  /** Every step of the history passed the comparison. */
  ghost predicate Ratcheted(history: seq<Policy>) {
    forall i :: 0 <= i < |history| - 1 ==> Accepts(history[i], history[i + 1])
  }

  lemma {:induction false} RatchetedAccepts(history: seq<Policy>, i: nat, j: nat)
    requires Ratcheted(history) && i <= j < |history|
    ensures Accepts(history[i], history[j])
    decreases j
  {
    if i == j {
      AcceptsReflexive(history[i]);
    } else {
      RatchetedAccepts(history, i, j - 1);
      AcceptsTransitive(history[i], history[j - 1], history[j]);
    }
  }

  /** After any chain of accepted revisions, code that passes the last policy's limits passes those of
      every earlier policy, over that policy's own roots. */
  lemma RatchetHolds(history: seq<Policy>, code: Measurements, i: nat, j: nat)
    requires Ratcheted(history) && i <= j < |history| && ExceptionsReachDefaults(history[i])
    requires WithinLimits(Collect(code, history[j].roots), history[j])
    ensures WithinLimits(Collect(code, history[i].roots), history[i])
  {
    var first, last := history[i], history[j];
    RatchetedAccepts(history, i, j);
    AcceptedIsTighter(first, last);
    forall path | path in Collect(code, first.roots) ensures path in Collect(code, last.roots) {
      var root :| root in first.roots && root + "/" <= path;
      assert root in Ordering.Elements(first.roots);
      assert root in last.roots;
    }
  }
}
