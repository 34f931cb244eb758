/** Cyclomatic complexity of a syntax tree, and the per-module measurement built on it. */
module Complexity {
  import opened Options
  import Ordering
  import Counting

  /** What a node means to the measure: the number of values of a boolean operation, the number of
      conditions of a comprehension, the names of definitions. */
  datatype Kind =
    | Branch
    | BoolOp(values: nat)
    | Comprehension(ifs: nat)
    | ClassDef(name: string)
    | FunctionDef(name: string)
    | Other

  datatype Node = Node(kind: Kind, children: seq<Node>)

  function Points(kind: Kind): int {
    match kind
    case Branch => 1
    case BoolOp(values) => values - 1
    case Comprehension(ifs) => 1 + ifs
    case _ => 0
  }

  /** All decision points of a tree, by recursion over its shape. */
  function DecisionPoints(node: Node): int {
    Points(node.kind) + DecisionPointsOf(node.children)
  }

  function DecisionPointsOf(nodes: seq<Node>): int {
    if nodes == [] then 0 else DecisionPoints(nodes[0]) + DecisionPointsOf(nodes[1..])
  }

  /** A tree's nodes. */
  function NodesOf(nodes: seq<Node>): seq<Node> {
    if nodes == [] then [] else [nodes[0]] + NodesOf(nodes[0].children) + NodesOf(nodes[1..])
  }

  predicate IsBranch(node: Node) { node.kind.Branch? }
  predicate IsComprehension(node: Node) { node.kind.Comprehension? }
  function ExtraValues(node: Node): int { if node.kind.BoolOp? then node.kind.values - 1 else 0 }
  function Conditions(node: Node): int { if node.kind.Comprehension? then node.kind.ifs else 0 }

  /** The decision points are the branches, every value of a boolean operation after its first, the comprehension
      clauses and their conditions. */
  lemma {:induction false} PointsAreCounted(nodes: seq<Node>)
    ensures var all := NodesOf(nodes);
            DecisionPointsOf(nodes)
            == Counting.CountIf(IsBranch, all) + Counting.SumBy(ExtraValues, all)
             + Counting.CountIf(IsComprehension, all) + Counting.SumBy(Conditions, all)
  {
    if nodes != [] {
      var first, below, later := [nodes[0]], NodesOf(nodes[0].children), NodesOf(nodes[1..]);
      PointsAreCounted(nodes[0].children);
      PointsAreCounted(nodes[1..]);
      CountsJoin(IsBranch, ExtraValues, first, below, later);
      CountsJoin(IsComprehension, Conditions, first, below, later);
      assert first[1..] == [];
    }
  }

  lemma CountsJoin(p: Node -> bool, f: Node -> int, a: seq<Node>, b: seq<Node>, c: seq<Node>)
    ensures Counting.CountIf(p, a + b + c) == Counting.CountIf(p, a) + Counting.CountIf(p, b) + Counting.CountIf(p, c)
    ensures Counting.SumBy(f, a + b + c) == Counting.SumBy(f, a) + Counting.SumBy(f, b) + Counting.SumBy(f, c)
  {
    Counting.CountIfAppend(p, a + b, c);
    Counting.CountIfAppend(p, a, b);
    Counting.SumByAppend(f, a + b, c);
    Counting.SumByAppend(f, a, b);
  }

  function Size(node: Node): nat {
    1 + SizeOf(node.children)
  }

  function SizeOf(nodes: seq<Node>): nat {
    if nodes == [] then 0 else Size(nodes[0]) + SizeOf(nodes[1..])
  }

  lemma {:induction false} Concatenation(a: seq<Node>, b: seq<Node>)
    ensures DecisionPointsOf(a + b) == DecisionPointsOf(a) + DecisionPointsOf(b)
    ensures SizeOf(a + b) == SizeOf(a) + SizeOf(b)
  {
    if a == [] {
      assert a + b == b;
    } else {
      Concatenation(a[1..], b);
      assert (a + b)[1..] == a[1..] + b;
    }
  }

  /** Walks the tree breadth-first with a worklist, adding up as it goes. */
  method CyclomaticComplexity(node: Node) returns (score: int)
    ensures score == 1 + DecisionPoints(node)
  {
    score := 1;
    var todo := [node];
    while todo != []
      invariant score + DecisionPointsOf(todo) == 1 + DecisionPoints(node)
      decreases SizeOf(todo)
    {
      var child := todo[0];
      assert SizeOf(todo) == Size(child) + SizeOf(todo[1..]);
      Concatenation(todo[1..], child.children);
      todo := todo[1..] + child.children;
      match child.kind {
        case Branch => score := score + 1;
        case BoolOp(values) => score := score + (values - 1);
        case Comprehension(ifs) => score := score + (1 + ifs);
        case _ =>
      }
    }
  }

  // ----- Measuring one module -----

  /** A function with its qualified name. */
  datatype Definition = Definition(name: string, body: Node)

  /** The outermost functions below a node, in traversal order; functions nested in them are not listed. */
  function Outermost(nodes: seq<Node>, prefix: string): seq<Definition> {
    if nodes == [] then []
    else
      (match nodes[0].kind
       case ClassDef(name) => Outermost(nodes[0].children, prefix + name + ".")
       case FunctionDef(name) => [Definition(prefix + name, nodes[0])]
       case _ => Outermost(nodes[0].children, prefix))
      + Outermost(nodes[1..], prefix)
  }

  function Max(a: int, b: int): int { if a < b then b else a }

  function Get(functions: map<string, int>, name: string): int {
    if name in functions then functions[name] else 0
  }

  /** One definition, keeping the larger score of a repeated name. */
  function RecordOne(functions: map<string, int>, d: Definition): map<string, int> {
    functions[d.name := Max(1 + DecisionPoints(d.body), Get(functions, d.name))]
  }

  /** Recording definitions one by one. */
  function Record(functions: map<string, int>, found: seq<Definition>): map<string, int>
    decreases |found|
  {
    if found == [] then functions
    else
      Record(RecordOne(functions, found[0]), found[1..])
  }

  lemma {:induction false} RecordAppend(functions: map<string, int>, a: seq<Definition>, b: seq<Definition>)
    ensures Record(functions, a + b) == Record(Record(functions, a), b)
    decreases |a|
  {
    if a == [] {
      assert a + b == b;
    } else {
      RecordAppend(RecordOne(functions, a[0]), a[1..], b);
      assert (a + b)[1..] == a[1..] + b;
    }
  }

  class Measurement {
    var functions: map<string, int>

    constructor ()
      ensures functions == map[]
    {
      functions := map[];
    }

    /** The nested walk, which stops at functions and descends through everything else. */
    method Walk(node: Node, prefix: string)
      modifies this
      ensures functions == Record(old(functions), Outermost(node.children, prefix))
      decreases node
    {
      var children := node.children;
      assert children[0..] == children;
      for i := 0 to |children|
        invariant Record(functions, Outermost(children[i..], prefix))
               == Record(old(functions), Outermost(children, prefix))
      {
        var child := children[i];
        assert children[i..][1..] == children[i + 1..];
        ghost var before, later := functions, Outermost(children[i + 1..], prefix);
        match child.kind {
          case ClassDef(name) =>
            RecordAppend(functions, Outermost(child.children, prefix + name + "."), later);
            Walk(child, prefix + name + ".");
          case FunctionDef(name) =>
            RecordAppend(functions, [Definition(prefix + name, child)], later);
            var score := CyclomaticComplexity(child);
            functions := functions[prefix + name := Max(score, Get(functions, prefix + name))];
          case _ =>
            RecordAppend(functions, Outermost(child.children, prefix), later);
            Walk(child, prefix);
        }
      }
    }
  }

  // ----- What the names are -----

  /** The node reached from a list of nodes by a path of child positions. */
  function NodeAt(nodes: seq<Node>, path: seq<nat>): Option<Node>
    decreases |path|
  {
    if path == [] || path[0] >= |nodes| then None
    else if |path| == 1 then Some(nodes[path[0]])
    else NodeAt(nodes[path[0]].children, path[1..])
  }

  /** The names of the classes passed on the way, in order, each followed by a dot. */
  function Qualifier(nodes: seq<Node>, path: seq<nat>): string
    decreases |path|
  {
    if |path| <= 1 || path[0] >= |nodes| then ""
    else
      (if nodes[path[0]].kind.ClassDef? then nodes[path[0]].kind.name + "." else "")
      + Qualifier(nodes[path[0]].children, path[1..])
  }

  /** No function is passed on the way. */
  predicate NoFunctionAbove(nodes: seq<Node>, path: seq<nat>)
    decreases |path|
  {
    |path| <= 1 || path[0] >= |nodes|
    || (!nodes[path[0]].kind.FunctionDef? && NoFunctionAbove(nodes[path[0]].children, path[1..]))
  }

  /** The function at a path, not inside another, under its qualified name. */
  predicate DefinedAt(nodes: seq<Node>, path: seq<nat>, d: Definition) {
    && NodeAt(nodes, path) == Some(d.body) && d.body.kind.FunctionDef?
    && NoFunctionAbove(nodes, path)
    && d.name == Qualifier(nodes, path) + d.body.kind.name
  }

  /** The same path, counted from the second node. */
  lemma PathFromSecond(nodes: seq<Node>, path: seq<nat>)
    requires nodes != [] && path != []
    ensures var longer := [path[0] + 1] + path[1..];
            && NodeAt(nodes, longer) == NodeAt(nodes[1..], path)
            && Qualifier(nodes, longer) == Qualifier(nodes[1..], path)
            && (NoFunctionAbove(nodes, longer) <==> NoFunctionAbove(nodes[1..], path))
  {
    var longer := [path[0] + 1] + path[1..];
    assert longer[1..] == path[1..];
    if path[0] < |nodes[1..]| { assert nodes[longer[0]] == nodes[1..][path[0]]; }
  }

  lemma PathBelow(nodes: seq<Node>, path: seq<nat>)
    requires nodes != [] && path != []
    ensures var longer := [0] + path;
            && NodeAt(nodes, longer) == NodeAt(nodes[0].children, path)
            && Qualifier(nodes, longer)
               == (if nodes[0].kind.ClassDef? then nodes[0].kind.name + "." else "") + Qualifier(nodes[0].children, path)
            && (NoFunctionAbove(nodes, longer) <==>
                  !nodes[0].kind.FunctionDef? && NoFunctionAbove(nodes[0].children, path))
  {
    assert ([0] + path)[1..] == path;
  }

  lemma PathHere(nodes: seq<Node>)
    requires nodes != []
    ensures NodeAt(nodes, [0]) == Some(nodes[0]) && Qualifier(nodes, [0]) == "" && NoFunctionAbove(nodes, [0])
  {
  }

  /** Whatever is listed is a function at some path, under its qualified name. */
  lemma {:induction false} ListedIsDefined(nodes: seq<Node>, prefix: string, d: Definition) returns (path: seq<nat>)
    requires d in Outermost(nodes, prefix)
    ensures path != []
    ensures NodeAt(nodes, path) == Some(d.body) && d.body.kind.FunctionDef? && NoFunctionAbove(nodes, path)
    ensures d.name == prefix + Qualifier(nodes, path) + d.body.kind.name
  {
    hide NodeAt, Qualifier, NoFunctionAbove;
    if d in Outermost(nodes[1..], prefix) {
      var later := ListedIsDefined(nodes[1..], prefix, d);
      PathFromSecond(nodes, later);
      path := [later[0] + 1] + later[1..];
    } else {
      match nodes[0].kind {
        case FunctionDef(name) =>
          path := [0];
          PathHere(nodes);
          assert prefix + "" == prefix;
        case ClassDef(name) =>
          var below := ListedIsDefined(nodes[0].children, prefix + name + ".", d);
          PathBelow(nodes, below);
          path := [0] + below;
          assert prefix + name + "." + Qualifier(nodes[0].children, below)
              == prefix + (name + "." + Qualifier(nodes[0].children, below));
        case _ =>
          var below := ListedIsDefined(nodes[0].children, prefix, d);
          PathBelow(nodes, below);
          path := [0] + below;
          assert "" + Qualifier(nodes[0].children, below) == Qualifier(nodes[0].children, below);
      }
    }
  }

  /** And every function at some path, not inside another, is listed under its qualified name. */
  lemma {:induction false} DefinedIsListed(nodes: seq<Node>, prefix: string, path: seq<nat>)
    requires NodeAt(nodes, path).Some? && NodeAt(nodes, path).value.kind.FunctionDef? && NoFunctionAbove(nodes, path)
    ensures var node := NodeAt(nodes, path).value;
            Definition(prefix + Qualifier(nodes, path) + node.kind.name, node) in Outermost(nodes, prefix)
    decreases nodes
  {
    var rest := path[1..];
    if path[0] > 0 {
      var earlier := [path[0] - 1] + rest;
      assert earlier[1..] == rest && path == [earlier[0] + 1] + earlier[1..];
      PathFromSecond(nodes, earlier);
      DefinedIsListed(nodes[1..], prefix, earlier);
    } else if |path| == 1 {
      assert prefix + "" == prefix;
    } else {
      assert path == [0] + rest;
      PathBelow(nodes, rest);
      var qualifier := Qualifier(nodes[0].children, rest);
      if nodes[0].kind.ClassDef? {
        var name := nodes[0].kind.name;
        DefinedIsListed(nodes[0].children, prefix + name + ".", rest);
        assert prefix + name + "." + qualifier == prefix + (name + "." + qualifier);
      } else {
        DefinedIsListed(nodes[0].children, prefix, rest);
        assert "" + qualifier == qualifier;
      }
    }
  }

  /** The functions listed are exactly those at some path with no function above, each named by the classes above it
      and its own name. */
  lemma OutermostIff(tree: Node, d: Definition)
    ensures d in Outermost(tree.children, "") <==> exists path :: DefinedAt(tree.children, path, d)
  {
    if d in Outermost(tree.children, "") {
      var path := ListedIsDefined(tree.children, "", d);
      assert "" + Qualifier(tree.children, path) == Qualifier(tree.children, path);
      assert DefinedAt(tree.children, path, d);
    }
    if path :| DefinedAt(tree.children, path, d) {
      DefinedIsListed(tree.children, "", path);
      assert "" + Qualifier(tree.children, path) == Qualifier(tree.children, path);
    }
  }

  // ----- Where the decision points go -----

  function BodyPoints(d: Definition): int { DecisionPoints(d.body) }

  /** The decision points outside every function. */
  function Outside(nodes: seq<Node>): int {
    if nodes == [] then 0
    else
      (if nodes[0].kind.FunctionDef? then 0 else Points(nodes[0].kind) + Outside(nodes[0].children))
      + Outside(nodes[1..])
  }

  /** Every decision point of a tree is in exactly one outermost function, or outside them all. */
  lemma {:induction false} PointsArePartitioned(nodes: seq<Node>, prefix: string)
    ensures DecisionPointsOf(nodes) == Counting.SumBy(BodyPoints, Outermost(nodes, prefix)) + Outside(nodes)
  {
    if nodes != [] {
      var first := nodes[0];
      PointsArePartitioned(nodes[1..], prefix);
      match first.kind {
        case ClassDef(name) =>
          PointsArePartitioned(first.children, prefix + name + ".");
          Counting.SumByAppend(BodyPoints, Outermost(first.children, prefix + name + "."), Outermost(nodes[1..], prefix));
        case FunctionDef(name) =>
          Counting.SumByAppend(BodyPoints, [Definition(prefix + name, first)], Outermost(nodes[1..], prefix));
        case _ =>
          PointsArePartitioned(first.children, prefix);
          Counting.SumByAppend(BodyPoints, Outermost(first.children, prefix), Outermost(nodes[1..], prefix));
      }
    }
  }

  /** A reported score less its base of one. */
  function Excess(functions: map<string, int>): string -> int {
    (name: string) => if name in functions then functions[name] - 1 else 0
  }

  /** The reported scores, less one each, added up over the sorted names. */
  function ReportedPoints(functions: map<string, int>): int {
    Counting.SumBy(Excess(functions), Ordering.SortedStrings(functions.Keys))
  }

  /** Boolean operations have at least one value, so no node takes points away. */
  predicate WellFormed(nodes: seq<Node>) {
    nodes == [] ||
    (&& (nodes[0].kind.BoolOp? ==> nodes[0].kind.values >= 1)
     && WellFormed(nodes[0].children) && WellFormed(nodes[1..]))
  }

  lemma {:induction false} PointsNonNegative(nodes: seq<Node>)
    requires WellFormed(nodes)
    ensures DecisionPointsOf(nodes) >= 0
  {
    if nodes != [] {
      PointsNonNegative(nodes[0].children);
      PointsNonNegative(nodes[1..]);
    }
  }

  lemma {:induction false} OutermostNonNegative(nodes: seq<Node>, prefix: string)
    requires WellFormed(nodes)
    ensures forall d :: d in Outermost(nodes, prefix) ==> DecisionPoints(d.body) >= 0
  {
    if nodes != [] {
      OutermostNonNegative(nodes[1..], prefix);
      match nodes[0].kind {
        case ClassDef(name) => OutermostNonNegative(nodes[0].children, prefix + name + ".");
        case FunctionDef(name) => PointsNonNegative(nodes[0].children);
        case _ => OutermostNonNegative(nodes[0].children, prefix);
      }
    }
  }

  /** Each reported score is the largest among the functions of that name. */
  ghost predicate Largest(functions: map<string, int>, found: seq<Definition>) {
    && (forall i :: 0 <= i < |found| ==>
         found[i].name in functions && BodyPoints(found[i]) <= functions[found[i].name] - 1)
    && (forall name :: name in functions ==>
         exists i :: 0 <= i < |found| && found[i].name == name && functions[name] == 1 + BodyPoints(found[i]))
  }

  lemma LargestStep(functions: map<string, int>, before: seq<Definition>, d: Definition)
    requires Largest(functions, before) && BodyPoints(d) >= 0
    ensures Largest(RecordOne(functions, d), before + [d])
  {
    hide BodyPoints;
    BodyScore(d);
    var functions', found := RecordOne(functions, d), before + [d];
    forall name | name in functions'
      ensures exists i :: 0 <= i < |found| && found[i].name == name && functions'[name] == 1 + BodyPoints(found[i])
    {
      if name in functions && functions'[name] == functions[name] {
        var i :| 0 <= i < |before| && before[i].name == name && functions[name] == 1 + BodyPoints(before[i]);
        assert found[i] == before[i];
      } else {
        assert found[|before|] == d;
      }
    }
  }

  lemma BodyScore(d: Definition)
    ensures DecisionPoints(d.body) == BodyPoints(d)
  {
  }

  lemma RecordLast(found: seq<Definition>)
    requires found != []
    ensures Record(map[], found) == RecordOne(Record(map[], found[..|found| - 1]), found[|found| - 1])
  {
    var last := [found[|found| - 1]];
    assert found == found[..|found| - 1] + last && last[1..] == [];
    RecordAppend(map[], found[..|found| - 1], last);
  }

  lemma {:induction false} ReportedScoresAreLargest(found: seq<Definition>)
    requires forall i :: 0 <= i < |found| ==> BodyPoints(found[i]) >= 0
    ensures Largest(Record(map[], found), found)
    decreases |found|
  {
    if found != [] {
      var before := found[..|found| - 1];
      assert before + [found[|found| - 1]] == found;
      ReportedScoresAreLargest(before);
      RecordLast(found);
      LargestStep(Record(map[], before), before, found[|found| - 1]);
    }
  }

  /** What recording one more definition adds to the reported points. */
  function Gain(functions: map<string, int>, d: Definition): int {
    if d.name in functions then Max(0, BodyPoints(d) - (functions[d.name] - 1)) else BodyPoints(d)
  }

  lemma ExcessStep(functions: map<string, int>, d: Definition)
    requires BodyPoints(d) >= 0
    ensures var functions' := RecordOne(functions, d);
            && functions'.Keys == functions.Keys + {d.name}
            && forall name :: Excess(functions')(name)
                 == Excess(functions)(name) + Counting.Indicator(d.name, Gain(functions, d))(name)
  {
  }

  /** A name that is not there yet adds nothing to a sum over names. */
  lemma SumOverMoreNames(functions: map<string, int>, name: string)
    ensures Counting.SumBy(Excess(functions), Ordering.SortedStrings(functions.Keys + {name})) == ReportedPoints(functions)
  {
    hide Ordering.SortedStrings;
    if name in functions {
      assert functions.Keys + {name} == functions.Keys;
    } else {
      var names := Ordering.SortedStrings(functions.Keys);
      Ordering.SortedStringsDistinct(functions.Keys);
      Counting.SumOverSet(Excess(functions), [name] + names, functions.Keys + {name});
      assert ([name] + names)[1..] == names;
    }
  }

  lemma GainAdds(functions: map<string, int>, d: Definition)
    requires BodyPoints(d) >= 0
    ensures ReportedPoints(RecordOne(functions, d)) == ReportedPoints(functions) + Gain(functions, d)
  {
    hide Excess, RecordOne, Gain, Counting.Indicator, Ordering.SortedStrings, BodyPoints;
    var functions' := RecordOne(functions, d);
    var names := Ordering.SortedStrings(functions.Keys + {d.name});
    ExcessStep(functions, d);
    Ordering.SortedStringsDistinct(functions.Keys + {d.name});
    Counting.SumOfSums(Excess(functions), Counting.Indicator(d.name, Gain(functions, d)), Excess(functions'), names);
    Counting.IndicatorSum(d.name, Gain(functions, d), names);
    SumOverMoreNames(functions, d.name);
  }

  // ----- The result of the measurement -----

  /** One score for each qualified name: that of its function, the larger when several share the name. */
  method Measure(tree: Node) returns (functions: map<string, int>)
    ensures functions == Record(map[], Outermost(tree.children, ""))
    ensures WellFormed(tree.children) ==>
              && (forall path, d :: DefinedAt(tree.children, path, d) ==>
                   d.name in functions && functions[d.name] >= 1 + DecisionPoints(d.body))
              && (forall name :: name in functions ==>
                   exists path, d :: DefinedAt(tree.children, path, d) && d.name == name
                     && functions[name] == 1 + DecisionPoints(d.body))
  {
    var m := new Measurement();
    m.Walk(tree, "");
    functions := m.functions;
    if WellFormed(tree.children) { MeasuredNames(tree); }
  }

  lemma MeasuredNames(tree: Node)
    requires WellFormed(tree.children)
    ensures var functions := Record(map[], Outermost(tree.children, ""));
            && (forall path, d :: DefinedAt(tree.children, path, d) ==>
                 d.name in functions && functions[d.name] >= 1 + DecisionPoints(d.body))
            && (forall name :: name in functions ==>
                 exists path, d :: DefinedAt(tree.children, path, d) && d.name == name
                   && functions[name] == 1 + DecisionPoints(d.body))
  {
    hide DefinedAt, Record;
    var found := Outermost(tree.children, "");
    var functions := Record(map[], found);
    OutermostNonNegative(tree.children, "");
    ReportedScoresAreLargest(found);
    forall path, d | DefinedAt(tree.children, path, d)
      ensures d.name in functions && functions[d.name] >= 1 + DecisionPoints(d.body)
    {
      OutermostIff(tree, d);
      var i :| 0 <= i < |found| && found[i] == d;
      BodyScore(d);
    }
    forall name | name in functions
      ensures exists path, d :: DefinedAt(tree.children, path, d) && d.name == name
                && functions[name] == 1 + DecisionPoints(d.body)
    {
      var i :| 0 <= i < |found| && found[i].name == name && functions[name] == 1 + BodyPoints(found[i]);
      OutermostIff(tree, found[i]);
      BodyScore(found[i]);
      var path :| DefinedAt(tree.children, path, found[i]);
    }
  }

  // ----- When every point is accounted for -----

  /** Of two functions of one name, at most one has any decision points. */
  ghost predicate RepeatsAreFlat(found: seq<Definition>) {
    forall i, j :: 0 <= i < j < |found| && found[i].name == found[j].name ==>
      BodyPoints(found[i]) == 0 || BodyPoints(found[j]) == 0
  }

  /** A definition gains all its points when it, or every earlier one of its name, has none to lose. */
  lemma FullGainIff(functions: map<string, int>, before: seq<Definition>, d: Definition)
    requires Largest(functions, before) && BodyPoints(d) >= 0
    requires forall i :: 0 <= i < |before| ==> BodyPoints(before[i]) >= 0
    ensures Gain(functions, d) <= BodyPoints(d)
    ensures Gain(functions, d) == BodyPoints(d) <==>
              BodyPoints(d) == 0 || forall i :: 0 <= i < |before| && before[i].name == d.name ==> BodyPoints(before[i]) == 0
  {
  }

  lemma FlatStep(before: seq<Definition>, d: Definition)
    ensures RepeatsAreFlat(before + [d]) <==>
              RepeatsAreFlat(before)
              && (BodyPoints(d) == 0 || forall i :: 0 <= i < |before| && before[i].name == d.name ==> BodyPoints(before[i]) == 0)
  {
    hide BodyPoints;
    var found := before + [d];
    assert found[|before|] == d;
    if RepeatsAreFlat(found) {
      forall i, j | 0 <= i < j < |before| && before[i].name == before[j].name
        ensures BodyPoints(before[i]) == 0 || BodyPoints(before[j]) == 0 { assert found[i] == before[i] && found[j] == before[j]; }
      forall i | 0 <= i < |before| && before[i].name == d.name
        ensures BodyPoints(d) == 0 || BodyPoints(before[i]) == 0 { assert found[i] == before[i]; }
    }
  }

  /** The reported scores never account for more than the functions' points, and for all of them exactly
      when no two functions of one name both have some. */
  lemma {:induction false} ReportedIff(found: seq<Definition>)
    requires forall i :: 0 <= i < |found| ==> BodyPoints(found[i]) >= 0
    ensures ReportedPoints(Record(map[], found)) <= Counting.SumBy(BodyPoints, found)
    ensures ReportedPoints(Record(map[], found)) == Counting.SumBy(BodyPoints, found) <==> RepeatsAreFlat(found)
    decreases |found|
  {
    hide BodyPoints, Largest, RepeatsAreFlat, Gain, RecordOne;
    if found == [] {
      NothingReported();
    } else {
      var before, d := found[..|found| - 1], found[|found| - 1];
      assert found == before + [d];
      ReportedIff(before);
      ReportedScoresAreLargest(before);
      RecordLast(found);
      GainAdds(Record(map[], before), d);
      FullGainIff(Record(map[], before), before, d);
      FlatStep(before, d);
      Counting.SumByAppend(BodyPoints, before, [d]);
      Counting.SumByOne(BodyPoints, d);
    }
  }

  lemma NothingReported()
    ensures ReportedPoints(Record(map[], [])) == 0 && RepeatsAreFlat([])
  {
  }

  /** The reported scores, less one each, account for every decision point inside functions exactly once,
      nested functions folded into their outermost one, if and only if no two functions of one qualified
      name both have decision points; otherwise some are lost. */
  lemma ReportedPointsConservedIff(tree: Node)
    requires WellFormed(tree.children)
    ensures var found := Outermost(tree.children, "");
            var accounted := Points(tree.kind) + ReportedPoints(Record(map[], found)) + Outside(tree.children);
            accounted <= DecisionPoints(tree) && (accounted == DecisionPoints(tree) <==> RepeatsAreFlat(found))
  {
    var found := Outermost(tree.children, "");
    OutermostNonNegative(tree.children, "");
    PointsArePartitioned(tree.children, "");
    ReportedIff(found);
  }
}
