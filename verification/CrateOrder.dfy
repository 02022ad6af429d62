/** The order in which the crates of the workspace can be published: each after its dependencies. */
module CrateOrder {
  import opened Types

  type Package = string

  /** The dependencies of each package of the workspace. They may name packages outside it. */
  type Graph = map<Package, seq<Package>>

  // ---- Cycles ----

  /** The package depends on another of the workspace. */
  predicate Edge(graph: Graph, a: Package, b: Package) {
    a in graph && b in graph && b in graph[a]
  }

  ghost predicate Walk(graph: Graph, path: seq<Package>) {
    forall i :: 0 <= i < |path| - 1 ==> Edge(graph, path[i], path[i + 1])
  }

  ghost predicate Cycle(graph: Graph, path: seq<Package>) {
    |path| >= 2 && Walk(graph, path) && path[0] == path[|path| - 1]
  }

  ghost predicate Acyclic(graph: Graph) {
    forall path :: !Cycle(graph, path)
  }

  /** Two packages depend on each other, or one on itself. */
  ghost predicate Mutual(graph: Graph) {
    exists a, b :: Edge(graph, a, b) && Edge(graph, b, a)
  }

  lemma MutualIsCyclic(graph: Graph)
    requires Mutual(graph)
    ensures !Acyclic(graph)
  {
    var a, b :| Edge(graph, a, b) && Edge(graph, b, a);
    assert Cycle(graph, [a, b, a]);
  }

  // ---- Orders ----

  ghost predicate NoRepeats(order: seq<Package>) {
    forall i, j :: 0 <= i < j < |order| ==> order[i] != order[j]
  }

  function Listed(order: seq<Package>): set<Package> {
    set i | 0 <= i < |order| :: order[i]
  }

  /** Every package comes after its dependencies. */
  ghost predicate AfterDependencies(graph: Graph, order: seq<Package>) {
    forall j, b :: 0 <= j < |order| && Edge(graph, order[j], b) ==> b in order[..j]
  }

  lemma ListedMore(order: seq<Package>, p: Package)
    ensures Listed(order + [p]) == Listed(order) + {p}
  {
    forall q | q in Listed(order) + {p}
      ensures q in Listed(order + [p])
    {
      if q == p {
        assert (order + [p])[|order|] == p;
      } else {
        var i :| 0 <= i < |order| && order[i] == q;
        assert (order + [p])[i] == q;
      }
    }
  }

  lemma {:induction false} WalkGoesBack(graph: Graph, order: seq<Package>, path: seq<Package>, j: nat, n: nat)
    requires NoRepeats(order) && AfterDependencies(graph, order) && Walk(graph, path)
    requires n < |path| && j < |order| && order[j] == path[0]
    ensures exists i :: 0 <= i <= j && order[i] == path[n] && (n > 0 ==> i < j)
    decreases n
  {
    if n == 0 {
      assert order[j] == path[0];
    } else {
      WalkGoesBack(graph, order, path, j, n - 1);
      var i :| 0 <= i <= j && order[i] == path[n - 1];
      assert Edge(graph, path[n - 1], path[n]);
      var k :| 0 <= k < i && order[..i][k] == path[n];
      assert order[k] == path[n];
    }
  }

  /** A graph that can be ordered has no cycle. */
  lemma OrderedIsAcyclic(graph: Graph, order: seq<Package>)
    requires NoRepeats(order) && AfterDependencies(graph, order) && Listed(order) == graph.Keys
    ensures Acyclic(graph)
  {
    forall path
      ensures !Cycle(graph, path)
    {
      if Cycle(graph, path) {
        assert Edge(graph, path[0], path[1]);
        var j :| 0 <= j < |order| && order[j] == path[0];
        WalkGoesBack(graph, order, path, j, |path| - 1);
      }
    }
  }

  // ---- Stuck packages are on a cycle ----

  /** Every one of these packages depends on one of them. */
  ghost predicate Stuck(graph: Graph, rest: set<Package>) {
    rest <= graph.Keys && forall p {:trigger HasNext(graph, rest, p)} :: p in rest ==> HasNext(graph, rest, p)
  }

  ghost predicate HasNext(graph: Graph, rest: set<Package>, p: Package) {
    exists q :: q in rest && Edge(graph, p, q)
  }

  lemma {:induction false} LongWalk(graph: Graph, rest: set<Package>, n: nat) returns (path: seq<Package>)
    requires Stuck(graph, rest) && rest != {}
    ensures |path| == n + 1 && Walk(graph, path) && forall i :: 0 <= i < |path| ==> path[i] in rest
  {
    if n == 0 {
      var p :| p in rest;
      path := [p];
    } else {
      var init := LongWalk(graph, rest, n - 1);
      assert HasNext(graph, rest, init[|init| - 1]);
      var q :| q in rest && Edge(graph, init[|init| - 1], q);
      path := init + [q];
    }
  }

  lemma {:induction false} NoRepeatsSize(order: seq<Package>)
    requires NoRepeats(order)
    ensures |Listed(order)| == |order|
  {
    if order != [] {
      var init := order[..|order| - 1];
      NoRepeatsSize(init);
      assert order == init + [order[|order| - 1]];
      ListedMore(init, order[|order| - 1]);
    }
  }

  /** A walk longer than the packages it can visit visits one twice. */
  lemma Pigeonhole(path: seq<Package>, rest: set<Package>)
    requires |path| > |rest| && forall i :: 0 <= i < |path| ==> path[i] in rest
    ensures !NoRepeats(path)
  {
    if NoRepeats(path) {
      NoRepeatsSize(path);
      SubsetSize(Listed(path), rest);
    }
  }

  /** When nothing can be taken out of what is left, there is a cycle. */
  lemma StuckIsCyclic(graph: Graph, rest: set<Package>)
    requires Stuck(graph, rest) && rest != {}
    ensures !Acyclic(graph)
  {
    var path := LongWalk(graph, rest, |rest|);
    Pigeonhole(path, rest);
    var i, j :| 0 <= i < j < |path| && path[i] == path[j];
    var cycle := path[i..j + 1];
    forall k | 0 <= k < |cycle| - 1
      ensures Edge(graph, cycle[k], cycle[k + 1])
    {
      assert Edge(graph, path[i + k], path[i + k + 1]);
    }
    assert Cycle(graph, cycle);
  }

  // ---- The script ----

  datatype Outcome =
    | Sorted(order: seq<Package>)
    | Rejected
    | Suspected(remaining: set<Package>)

  /** Looks for packages that depend on each other directly. */
  method HasDirectCycle(graph: Graph) returns (found: bool)
    ensures found <==> Mutual(graph)
  {
    found := false;
    var todo := graph.Keys;
    while todo != {}
      invariant todo <= graph.Keys
      invariant found ==> Mutual(graph)
      invariant !found ==> forall a, b :: a in graph && a !in todo ==> !(Edge(graph, a, b) && Edge(graph, b, a))
    {
      var a :| a in todo;
      todo := todo - {a};
      for i := 0 to |graph[a]|
        invariant found ==> Mutual(graph)
        invariant !found ==> forall j :: 0 <= j < i ==> !(Edge(graph, a, graph[a][j]) && Edge(graph, graph[a][j], a))
        invariant !found ==> forall c, b :: c in graph && c !in todo && c != a ==>
                    !(Edge(graph, c, b) && Edge(graph, b, c))
      {
        var b := graph[a][i];
        if b in graph && a in graph[b] {
          assert Edge(graph, a, b) && Edge(graph, b, a);
          found := true;
        }
      }
    }
  }

  /** Does any dependency of the package remain? */
  method IsBlocked(dependencies: seq<Package>, remaining: set<Package>) returns (blocked: bool)
    ensures blocked <==> exists i :: 0 <= i < |dependencies| && dependencies[i] in remaining
  {
    for i := 0 to |dependencies|
      invariant forall j :: 0 <= j < i ==> dependencies[j] !in remaining
    {
      if dependencies[i] in remaining {
        return true;
      }
    }
    return false;
  }

  /** What is known before each pass. */
  ghost predicate Progress(graph: Graph, remaining: set<Package>, order: seq<Package>) {
    && NoRepeats(order) && Listed(order) + remaining == graph.Keys && Listed(order) !! remaining
    && AfterDependencies(graph, order)
  }

  /** One pass takes out every package none of whose dependencies remains. */
  method Pass(graph: Graph, remaining: set<Package>, order: seq<Package>)
    returns (remaining': set<Package>, order': seq<Package>)
    requires Progress(graph, remaining, order)
    ensures Progress(graph, remaining', order') && remaining' <= remaining
    ensures forall p :: p in remaining ==> (p in remaining' <==> HasNext(graph, remaining, p))
  {
    order' := order;
    var deleted: set<Package> := {};
    var todo := remaining;
    while todo != {}
      invariant todo <= remaining && deleted <= remaining && deleted !! todo
      invariant Progress(graph, remaining - deleted, order') && Listed(order') == Listed(order) + deleted
      invariant forall p :: p in remaining && p !in todo ==> (p in deleted <==> !HasNext(graph, remaining, p))
    {
      var p :| p in todo;
      todo := todo - {p};
      var blocked := IsBlocked(graph[p], remaining);
      BlockedHasNext(graph, remaining, p);
      if !blocked {
        ProgressStep(graph, remaining, deleted, order, order', p);
        ListedMore(order', p);
        deleted := deleted + {p};
        order' := order' + [p];
      }
    }
    remaining' := remaining - deleted;
  }

  lemma BlockedHasNext(graph: Graph, remaining: set<Package>, p: Package)
    requires p in graph && remaining <= graph.Keys
    ensures HasNext(graph, remaining, p) <==> exists i :: 0 <= i < |graph[p]| && graph[p][i] in remaining
  {
    if HasNext(graph, remaining, p) {
      var q :| q in remaining && Edge(graph, p, q);
      var i :| 0 <= i < |graph[p]| && graph[p][i] == q;
    }
    if i :| 0 <= i < |graph[p]| && graph[p][i] in remaining {
      assert Edge(graph, p, graph[p][i]);
    }
  }

  lemma ProgressStep(graph: Graph, remaining: set<Package>, deleted: set<Package>, order: seq<Package>,
                     order': seq<Package>, p: Package)
    requires Progress(graph, remaining - deleted, order') && Listed(order') == Listed(order) + deleted
    requires Listed(order) + remaining == graph.Keys && p in remaining && p !in deleted && !HasNext(graph, remaining, p)
    ensures Progress(graph, remaining - (deleted + {p}), order' + [p])
  {
    ListedMore(order', p);
    var more := order' + [p];
    forall i | 0 <= i < |order'|
      ensures order'[i] != p
    {
      assert order'[i] in Listed(order');
    }
    forall j, b | 0 <= j < |more| && Edge(graph, more[j], b)
      ensures b in more[..j]
    {
      if j < |order'| {
        assert b in order'[..j] && more[..j] == order'[..j];
      } else {
        assert more[..j] == order' && b !in remaining;
        assert b in Listed(order');
      }
    }
    assert remaining - (deleted + {p}) == (remaining - deleted) - {p};
  }

  /** As long as the graph has no cycle, every pass takes something out. */
  lemma PassMakesProgress(graph: Graph, remaining: set<Package>, remaining': set<Package>)
    requires Acyclic(graph) && remaining != {} && remaining' <= remaining <= graph.Keys
    requires forall p :: p in remaining ==> (p in remaining' <==> HasNext(graph, remaining, p))
    ensures |remaining'| < |remaining|
  {
    SubsetSize(remaining', remaining);
    if |remaining'| == |remaining| {
      SubsetSameSize(remaining', remaining);
      StuckIsCyclic(graph, remaining);
    }
  }

  lemma SquareIsEnough(n: nat)
    ensures n <= n * n
  {
  }

  /**
   * Orders the packages, or stops. It succeeds exactly when the workspace has no cyclic
   * dependencies, and the budget of passes runs out only when it has.
   */
  method OrderPackages(graph: Graph, wrongSelfDependencies: bool) returns (outcome: Outcome)
    ensures outcome.Rejected? <==> wrongSelfDependencies || Mutual(graph)
    ensures outcome.Sorted? <==> !wrongSelfDependencies && Acyclic(graph)
    ensures outcome.Sorted? ==> NoRepeats(outcome.order) && Listed(outcome.order) == graph.Keys
                                && AfterDependencies(graph, outcome.order)
    ensures outcome.Sorted? ==>
              forall j, p :: 0 <= j < |outcome.order| && p in graph[outcome.order[j]] && p in graph ==>
                                  p in outcome.order[..j]
  {
    var circular := HasDirectCycle(graph);
    if circular || wrongSelfDependencies {
      if circular {
        MutualIsCyclic(graph);
      }
      return Rejected;
    }
    var order: seq<Package> := [];
    var remaining := graph.Keys;
    var budget := |graph| * |graph|;
    SquareIsEnough(|graph|);
    while remaining != {}
      invariant 0 <= budget <= |graph| * |graph| && Progress(graph, remaining, order)
      invariant Acyclic(graph) ==> |remaining| + (|graph| * |graph| - budget) <= |graph|
      decreases budget
    {
      if budget == 0 {
        SizeOfRemaining(graph, remaining);
        return Suspected(remaining);
      }
      budget := budget - 1;
      var remaining';
      remaining', order := Pass(graph, remaining, order);
      if Acyclic(graph) {
        PassMakesProgress(graph, remaining, remaining');
      }
      remaining := remaining';
    }
    OrderedIsAcyclic(graph, order);
    return Sorted(order);
  }

  lemma SizeOfRemaining(graph: Graph, remaining: set<Package>)
    requires remaining <= graph.Keys && remaining != {}
    ensures 0 < |remaining| && 0 < |graph| <= |graph| * |graph|
  {
    SubsetSize(remaining, graph.Keys);
    SquareIsEnough(|graph|);
  }
}
