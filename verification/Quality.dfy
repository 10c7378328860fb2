/**
 * The complexity scan: own-scope walks that stop at nested functions and lambdas, cyclomatic
 * complexity, nesting depth, and the breadth-first scan for the worst function.
 */
module Quality {
  import opened Options

  /** What the scan distinguishes about a syntax node. `BoolOp` and `Comprehension` carry the number
      of operands and of `if` clauses. */
  datatype Kind =
    | Function(name: string) | Lambda
    | If | For | While | Try | With
    | ExceptHandler | IfExp | WithItem | Assert | MatchCase
    | BoolOp(values: nat) | Comprehension(ifs: nat)
    | Other

  /** A syntax node with its child nodes in order; `lines` is the inclusive span, when known. */
  datatype Node = Node(kind: Kind, lines: Option<(int, int)>, children: seq<Node>)

  predicate IsBoundary(n: Node) { n.kind.Function? || n.kind.Lambda? }

  predicate IsNesting(n: Node) {
    n.kind.If? || n.kind.For? || n.kind.While? || n.kind.Try? || n.kind.With?
  }

  /** The decision points a single node stands for. */
  function Weight(n: Node): (w: int)
    ensures w >= 0
  {
    match n.kind
    case If | For | While | ExceptHandler | IfExp | WithItem | Assert | MatchCase => 1
    case BoolOp(values) => if values >= 1 then values - 1 else 0
    case Comprehension(ifs) => ifs
    case _ => 0
  }

  /** The decision points, kind by kind: one for each branch, loop, handler, conditional, context,
      assertion and case, one for each further operand, and one for each `if` of a comprehension. */
  lemma WeightIs(n: Node)
    ensures n.kind in [If, For, While, ExceptHandler, IfExp, WithItem, Assert, MatchCase] ==> Weight(n) == 1
    ensures n.kind.BoolOp? ==> Weight(n) == if n.kind.values == 0 then 0 else n.kind.values - 1
    ensures n.kind.Comprehension? ==> Weight(n) == n.kind.ifs
    ensures n.kind.Function? || n.kind in [Lambda, Try, With, Other] ==> Weight(n) == 0
  {
  }

  /** Nested functions and lambdas end a scope; branches, loops, `try` and `with` blocks nest. */
  lemma BoundariesAre(n: Node)
    ensures IsBoundary(n) <==> n.kind.Function? || n.kind == Lambda
    ensures IsNesting(n) <==> n.kind in [If, For, While, Try, With]
  {
  }

  // ---- Walks -----------------------------------------------------------------------------

  /** The own-scope walk below `n`, from child `i` on: every descendant, without the nested
      functions and lambdas and what is below them. */
  function OwnScopeFrom(n: Node, i: nat): seq<Node>
    requires i <= |n.children|
    decreases n, |n.children| - i
  {
    if i == |n.children| then []
    else
      var c := n.children[i];
      (if IsBoundary(c) then [] else [c] + OwnScopeFrom(c, 0)) + OwnScopeFrom(n, i + 1)
  }

  function OwnScope(n: Node): seq<Node> { OwnScopeFrom(n, 0) }

  function Sum(s: seq<Node>, f: Node -> int): int {
    if s == [] then 0 else Sum(s[..|s| - 1], f) + f(s[|s| - 1])
  }

  lemma {:induction false} SumConcat(a: seq<Node>, b: seq<Node>, f: Node -> int)
    ensures Sum(a + b, f) == Sum(a, f) + Sum(b, f)
  {
    if b == [] {
      assert a + b == a;
    } else {
      assert (a + b)[..|a + b| - 1] == a + b[..|b| - 1];
      SumConcat(a, b[..|b| - 1], f);
    }
  }

  lemma SumFirst(n: Node, rest: seq<Node>, f: Node -> int)
    ensures Sum([n] + rest, f) == f(n) + Sum(rest, f)
  {
    SumConcat([n], rest, f);
    assert [n][..0] == [];
  }

  /** The sum of `f` over the subtrees of the children of `n` from `i` on. */
  function BelowFrom(n: Node, i: nat, f: Node -> int): int
    requires i <= |n.children|
    decreases n, |n.children| - i
  {
    if i == |n.children| then 0
    else f(n.children[i]) + BelowFrom(n.children[i], 0, f) + BelowFrom(n, i + 1, f)
  }

  /** The sum of `f` over a whole tree, by structural recursion. */
  function TreeSum(n: Node, f: Node -> int): int { f(n) + BelowFrom(n, 0, f) }

  function ForestSum(s: seq<Node>, f: Node -> int): int {
    if s == [] then 0 else ForestSum(s[..|s| - 1], f) + TreeSum(s[|s| - 1], f)
  }

  lemma {:induction false} ForestSumConcat(a: seq<Node>, b: seq<Node>, f: Node -> int)
    ensures ForestSum(a + b, f) == ForestSum(a, f) + ForestSum(b, f)
  {
    if b == [] {
      assert a + b == a;
    } else {
      assert (a + b)[..|a + b| - 1] == a + b[..|b| - 1];
      ForestSumConcat(a, b[..|b| - 1], f);
    }
  }

  lemma {:induction false} ForestOfChildren(n: Node, i: nat, f: Node -> int)
    requires i <= |n.children|
    ensures ForestSum(n.children[i..], f) == BelowFrom(n, i, f)
    decreases |n.children| - i
  {
    if i < |n.children| {
      var c := n.children[i];
      ForestOfChildren(n, i + 1, f);
      assert n.children[i..] == [c] + n.children[i + 1..];
      ForestSumConcat([c], n.children[i + 1..], f);
      assert [c][..0] == [];
    }
  }

  lemma ForestFirst(queue: seq<Node>, f: Node -> int)
    requires queue != []
    ensures ForestSum(queue, f) == f(queue[0]) + ForestSum(queue[1..] + queue[0].children, f)
  {
    var n := queue[0];
    assert queue == [n] + queue[1..];
    assert [n][..0] == [];
    ForestSumConcat([n], queue[1..], f);
    ForestSumConcat(queue[1..], n.children, f);
    ForestOfChildren(n, 0, f);
    assert n.children[0..] == n.children;
  }

  function One(n: Node): int { 1 }

  lemma {:induction false} SizeNonNegative(n: Node, i: nat)
    requires i <= |n.children|
    ensures BelowFrom(n, i, One) >= 0
    decreases n, |n.children| - i
  {
    if i < |n.children| {
      SizeNonNegative(n.children[i], 0);
      SizeNonNegative(n, i + 1);
    }
  }

  lemma {:induction false} ForestSizeNonNegative(s: seq<Node>)
    ensures ForestSum(s, One) >= 0
  {
    if s != [] {
      ForestSizeNonNegative(s[..|s| - 1]);
      SizeNonNegative(s[|s| - 1], 0);
    }
  }

  /** The breadth-first walk: take from the front, append the children at the back. */
  ghost function Walk(queue: seq<Node>): seq<Node>
    decreases ForestSum(queue, One)
  {
    if queue == [] then []
    else
      ForestFirst(queue, One);
      ForestSizeNonNegative(queue[1..] + queue[0].children);
      [queue[0]] + Walk(queue[1..] + queue[0].children)
  }

  /** The queue-driven walk visits each node of the trees exactly once, for every measure. */
  lemma {:induction false} WalkVisitsEachNodeOnce(queue: seq<Node>, f: Node -> int)
    ensures Sum(Walk(queue), f) == ForestSum(queue, f)
    decreases ForestSum(queue, One)
  {
    if queue != [] {
      ForestFirst(queue, One);
      ForestSizeNonNegative(queue[1..] + queue[0].children);
      WalkVisitsEachNodeOnce(queue[1..] + queue[0].children, f);
      ForestFirst(queue, f);
      SumFirst(queue[0], Walk(queue[1..] + queue[0].children), f);
    }
  }

  lemma WalkOfTree(root: Node, f: Node -> int)
    ensures Sum(Walk([root]), f) == TreeSum(root, f)
  {
    WalkVisitsEachNodeOnce([root], f);
    assert [root][..0] == [];
  }

  /** The walk as the source's loop runs it. */
  method WalkLoop(root: Node) returns (nodes: seq<Node>)
    ensures nodes == Walk([root])
  {
    nodes := [];
    var todo := [root];
    while todo != []
      invariant nodes + Walk(todo) == Walk([root])
      decreases ForestSum(todo, One)
    {
      ForestFirst(todo, One);
      ForestSizeNonNegative(todo[1..] + todo[0].children);
      var node := todo[0];
      assert nodes + ([node] + Walk(todo[1..] + node.children))
          == (nodes + [node]) + Walk(todo[1..] + node.children);
      todo := todo[1..] + node.children;
      nodes := nodes + [node];
    }
  }

  // ---- Complexity ------------------------------------------------------------------------

  /** The decision points in the own scope of `n`. */
  function OwnWeight(n: Node): int { Sum(OwnScope(n), Weight) }

  function Complexity(n: Node): int { 1 + OwnWeight(n) }

  method FunctionComplexity(n: Node) returns (complexity: int)
    ensures complexity == Complexity(n)
  {
    var scope := OwnScope(n);
    complexity := 1;
    for i := 0 to |scope|
      invariant complexity == 1 + Sum(scope[..i], Weight)
    {
      assert scope[..i + 1][..i] == scope[..i];
      complexity := complexity + Weight(scope[i]);
    }
    assert scope[..|scope|] == scope;
  }

  /** `f`, except on nested functions and lambdas themselves. */
  function Inside(f: Node -> int): Node -> int { n => if IsBoundary(n) then 0 else f(n) }

  /** The own-scope sum of a function or lambda, and nothing for the other nodes. */
  function OwnOfBoundaries(f: Node -> int): Node -> int {
    n => if IsBoundary(n) then Sum(OwnScope(n), f) else 0
  }

  /** Below any node, the own scope and the own scopes of the nested functions and lambdas together
      cover every other node exactly once, for every measure. */
  lemma {:induction false} OwnScopesPartition(n: Node, i: nat, f: Node -> int)
    requires i <= |n.children|
    ensures Sum(OwnScopeFrom(n, i), f) + BelowFrom(n, i, OwnOfBoundaries(f)) == BelowFrom(n, i, Inside(f))
    decreases n, |n.children| - i
  {
    if i < |n.children| {
      var c := n.children[i];
      var below, rest := OwnScopeFrom(c, 0), OwnScopeFrom(n, i + 1);
      OwnScopesPartition(c, 0, f);
      OwnScopesPartition(n, i + 1, f);
      if IsBoundary(c) {
        assert [] + rest == rest;
      } else {
        SumFirst(c, below, f);
        SumConcat([c] + below, rest, f);
      }
    }
  }

  function FunctionExcess(n: Node): int { if n.kind.Function? then Complexity(n) - 1 else 0 }

  function LambdaOwn(n: Node): int { if n.kind.Lambda? then OwnWeight(n) else 0 }

  lemma {:induction false} BelowSplits(n: Node, i: nat)
    requires i <= |n.children|
    ensures BelowFrom(n, i, OwnOfBoundaries(Weight)) == BelowFrom(n, i, FunctionExcess) + BelowFrom(n, i, LambdaOwn)
    ensures BelowFrom(n, i, Inside(Weight)) == BelowFrom(n, i, Weight)
    decreases n, |n.children| - i
  {
    if i < |n.children| {
      BelowSplits(n.children[i], 0);
      BelowSplits(n, i + 1);
    }
  }

  /** No decision point is counted twice, and exactly those of the module level and of lambdas are
      counted by no function: over a whole module, what the reported complexities count in excess
      of one, the module's own decision points and those of its lambdas make up all of them. */
  lemma NoDecisionCountedTwice(root: Node)
    requires !IsBoundary(root)
    ensures Sum(Walk([root]), FunctionExcess) + OwnWeight(root) + Sum(Walk([root]), LambdaOwn)
         == Sum(Walk([root]), Weight) - Weight(root)
  {
    WalkOfTree(root, FunctionExcess);
    WalkOfTree(root, LambdaOwn);
    WalkOfTree(root, Weight);
    OwnScopesPartition(root, 0, Weight);
    BelowSplits(root, 0);
  }

  // ---- Nesting ---------------------------------------------------------------------------

  function Max(a: nat, b: nat): nat { if a < b then b else a }

  function Step(c: Node): nat { if IsNesting(c) then 1 else 0 }

  /** A path of child positions that stays within the own scope of `n`. */
  predicate InOwnScope(n: Node, path: seq<nat>) {
    path == []
    || (path[0] < |n.children| && !IsBoundary(n.children[path[0]])
        && InOwnScope(n.children[path[0]], path[1..]))
  }

  /** The compound blocks entered along a path. */
  function BlocksAlong(n: Node, path: seq<nat>): nat
    requires InOwnScope(n, path)
  {
    if path == [] then 0
    else Step(n.children[path[0]]) + BlocksAlong(n.children[path[0]], path[1..])
  }

  /** `best` is the number of blocks entered on the deepest path in the own scope that starts at
      a child before `i`. */
  ghost predicate IsDeepest(n: Node, i: nat, best: nat) {
    && (forall path: seq<nat> :: InOwnScope(n, path) && (path != [] ==> path[0] < i)
          ==> BlocksAlong(n, path) <= best)
    && (exists path: seq<nat> :: InOwnScope(n, path) && (path != [] ==> path[0] < i)
          && BlocksAlong(n, path) == best)
  }

  lemma DeepestSkips(n: Node, i: nat, best: nat)
    requires i < |n.children| && IsBoundary(n.children[i]) && IsDeepest(n, i, best)
    ensures IsDeepest(n, i + 1, best)
  {
  }

  lemma DeepestExtends(n: Node, i: nat, best: nat, below: nat)
    requires i < |n.children| && !IsBoundary(n.children[i]) && IsDeepest(n, i, best)
    requires IsDeepest(n.children[i], |n.children[i].children|, below)
    ensures IsDeepest(n, i + 1, Max(best, Step(n.children[i]) + below))
  {
    var c := n.children[i];
    var deepest := Max(best, Step(c) + below);
    forall path: seq<nat> | InOwnScope(n, path) && (path != [] ==> path[0] < i + 1)
      ensures BlocksAlong(n, path) <= deepest
    {
      if path != [] && path[0] == i {
        assert InOwnScope(c, path[1..]);
      }
    }
    var left: seq<nat> :| InOwnScope(n, left) && (left != [] ==> left[0] < i)
      && BlocksAlong(n, left) == best;
    var inner: seq<nat> :| InOwnScope(c, inner) && BlocksAlong(c, inner) == below;
    var outer: seq<nat> := [i] + inner;
    assert outer[1..] == inner;
    assert BlocksAlong(n, outer) == Step(c) + below;
  }

  /** The source's recursion with a running best: from depth `depth`, it returns `depth` plus the
      blocks entered on the deepest path in the own scope. */
  method NestingDepth(n: Node, depth: nat) returns (best: nat)
    ensures best >= depth && IsDeepest(n, |n.children|, best - depth)
    decreases n
  {
    best := depth;
    assert InOwnScope(n, []) && BlocksAlong(n, []) == 0;
    for i := 0 to |n.children|
      invariant best >= depth && IsDeepest(n, i, best - depth)
    {
      var child := n.children[i];
      if IsBoundary(child) {
        DeepestSkips(n, i, best - depth);
      } else {
        var next := depth + Step(child);
        var below := NestingDepth(child, next);
        DeepestExtends(n, i, best - depth, below - next);
        best := Max(best, below);
      }
    }
  }

  /** One step along a path: a block is entered where the child is a branch, loop, `try` or `with`. */
  lemma BlocksAlongStep(n: Node, i: nat, path: seq<nat>)
    requires i < |n.children|
    ensures InOwnScope(n, [i] + path) <==>
              !n.children[i].kind.Function? && n.children[i].kind != Lambda && InOwnScope(n.children[i], path)
    ensures InOwnScope(n, [i] + path) ==>
              BlocksAlong(n, [i] + path) ==
              BlocksAlong(n.children[i], path) + if n.children[i].kind in [If, For, While, Try, With] then 1 else 0
  {
    assert ([i] + path)[1..] == path;
  }

  // ---- The scan --------------------------------------------------------------------------

  /** What a file holds: something other than text, text that does not parse, or a module. */
  datatype Source = NotText | Unparseable | Parsed(root: Node)

  datatype File = File(name: string, source: Source)

  datatype Report = Report(qualified: string, complexity: int)

  function Reports(name: string, nodes: seq<Node>): seq<Report> {
    if nodes == [] then []
    else
      var n, earlier := nodes[|nodes| - 1], Reports(name, nodes[..|nodes| - 1]);
      if n.kind.Function? then earlier + [Report(name + ":" + n.kind.name, Complexity(n))] else earlier
  }

  ghost function FileReports(f: File): seq<Report> {
    if f.source.Parsed? then Reports(f.name, Walk([f.source.root])) else []
  }

  ghost function AllReports(files: seq<File>): seq<Report> {
    if files == [] then []
    else AllReports(files[..|files| - 1]) + FileReports(files[|files| - 1])
  }

  /** What is reported: of every function, in walk order, one plus the decision points of its own scope;
      and file by file. */
  lemma ReportsMore(name: string, nodes: seq<Node>, n: Node, files: seq<File>, f: File)
    ensures Reports(name, nodes + [n]) ==
            Reports(name, nodes) +
            if n.kind.Function? then [Report(name + ":" + n.kind.name, 1 + Sum(OwnScope(n), Weight))] else []
    ensures AllReports(files + [f]) ==
            AllReports(files) + if f.source.Parsed? then Reports(f.name, Walk([f.source.root])) else []
  {
    assert (nodes + [n])[..|nodes|] == nodes && (files + [f])[..|files|] == files;
  }

  /** The walk is breadth-first: a node comes before all that waits, its children behind. */
  lemma WalkIs(n: Node, rest: seq<Node>)
    ensures Walk([n] + rest) == [n] + Walk(rest + n.children) && Walk([]) == []
  {
    var queue := [n] + rest;
    assert queue[1..] == rest && queue[0] == n;
  }

  /** `worst` names the first report of the greatest complexity, and nothing without reports. */
  ghost predicate IsWorst(reports: seq<Report>, greatest: int, worst: Option<string>) {
    && (reports == [] ==> greatest == 0 && worst == None)
    && (reports != [] ==>
          exists k ::
            && FirstGreatest(reports, k)
            && greatest == reports[k].complexity && worst == Some(reports[k].qualified))
  }

  ghost predicate FirstGreatest(reports: seq<Report>, k: int) {
    && 0 <= k < |reports|
    && (forall j :: 0 <= j < |reports| ==> reports[j].complexity <= reports[k].complexity)
    && (forall j :: 0 <= j < k ==> reports[j].complexity < reports[k].complexity)
  }

  /** The greatest complexity is reported with the first that has it. */
  lemma WorstIs(reports: seq<Report>, greatest: int, worst: Option<string>)
    requires IsWorst(reports, greatest, worst)
    ensures reports == [] ==> greatest == 0 && worst == None
    ensures forall r :: r in reports ==> r.complexity <= greatest
    ensures reports != [] ==>
              exists k :: 0 <= k < |reports| && reports[k].complexity == greatest && worst == Some(reports[k].qualified)
                          && forall j :: 0 <= j < k ==> reports[j].complexity < greatest
  {
    if reports != [] {
      var k :| FirstGreatest(reports, k) && greatest == reports[k].complexity && worst == Some(reports[k].qualified);
      assert 0 <= k < |reports| && forall j :: 0 <= j < k ==> reports[j].complexity < greatest;
    }
  }

  lemma {:induction false} ScopeWeightNonNegative(s: seq<Node>)
    ensures Sum(s, Weight) >= 0
  {
    if s != [] {
      ScopeWeightNonNegative(s[..|s| - 1]);
    }
  }

  lemma NewGreatest(sofar: seq<Report>, greatest: int, worst: Option<string>, r: Report)
    requires IsWorst(sofar, greatest, worst) && r.complexity > greatest
    ensures FirstGreatest(sofar + [r], |sofar|)
  {
    assert forall j :: 0 <= j < |sofar| ==> (sofar + [r])[j] == sofar[j];
  }

  lemma WorstExtends(before: seq<Report>, reports: seq<Report>, greatest: int, worst: Option<string>, r: Report)
    requires IsWorst(before + reports, greatest, worst) && r.complexity > 0
    ensures r.complexity > greatest ==> IsWorst(before + (reports + [r]), r.complexity, Some(r.qualified))
    ensures r.complexity <= greatest ==> IsWorst(before + (reports + [r]), greatest, worst)
  {
    var sofar := before + reports;
    var all := sofar + [r];
    assert before + (reports + [r]) == all;
    if r.complexity > greatest {
      NewGreatest(sofar, greatest, worst, r);
    } else {
      var k :| FirstGreatest(sofar, k) && greatest == sofar[k].complexity
        && worst == Some(sofar[k].qualified);
      assert FirstGreatest(all, k);
    }
  }

  /** The function scan of one file, carrying the running maximum in and out. */
  method ScanFile(name: string, root: Node, ghost before: seq<Report>, greatest: int, worst: Option<string>)
    returns (reports: seq<Report>, newGreatest: int, newWorst: Option<string>)
    requires IsWorst(before, greatest, worst)
    ensures reports == Reports(name, Walk([root]))
    ensures IsWorst(before + reports, newGreatest, newWorst)
  {
    reports, newGreatest, newWorst := [], greatest, worst;
    var nodes := WalkLoop(root);
    assert before + [] == before;
    for i := 0 to |nodes|
      invariant reports == Reports(name, nodes[..i])
      invariant IsWorst(before + reports, newGreatest, newWorst)
    {
      assert nodes[..i + 1][..i] == nodes[..i];
      if nodes[i].kind.Function? {
        var complexity := FunctionComplexity(nodes[i]);
        var report := Report(name + ":" + nodes[i].kind.name, complexity);
        ScopeWeightNonNegative(OwnScope(nodes[i]));
        WorstExtends(before, reports, newGreatest, newWorst, report);
        reports := reports + [report];
        if complexity > newGreatest {
          newGreatest, newWorst := complexity, Some(report.qualified);
        }
      }
    }
    assert nodes[..|nodes|] == nodes;
  }

  /** The scan of all files: the reported maximum belongs to the first worst function of all files
      that are text and parse, in walk order. */
  method AssessFunctions(files: seq<File>) returns (greatest: int, worst: Option<string>)
    ensures IsWorst(AllReports(files), greatest, worst)
  {
    greatest, worst := 0, None;
    for i := 0 to |files|
      invariant IsWorst(AllReports(files[..i]), greatest, worst)
    {
      assert files[..i + 1][..i] == files[..i];
      ghost var before := AllReports(files[..i]);
      match files[i].source
      case Parsed(root) =>
        var _, newGreatest, newWorst := ScanFile(files[i].name, root, before, greatest, worst);
        greatest, worst := newGreatest, newWorst;
      case _ =>
        assert before + [] == before;
    }
    assert files[..|files|] == files;
  }
}
