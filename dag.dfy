/**
 * The precedence structure of dag.py: the transitive closure of "must precede"
 * kept in two mirrored maps, `dependencies` (job -> the jobs that must come before
 * it) and `dependents` (job -> the jobs that must come after it).
 *
 * The graph library's edge set is the field `graph`, the accepted edges the ghost
 * field `edges`; the library's acyclicity test is the ghost predicate `Acyclic`,
 * defined by paths.
 */
module Dags {
  import opened Wrappers

  type Edge = (int, int)

  /** Lookup in a map of sets whose missing keys read as the empty set (a defaultdict of sets). */
  function Lookup(m: map<int, set<int>>, k: int): set<int> {
    if k in m then m[k] else {}
  }

  /** `a` must precede `b` according to the dependency map. */
  predicate Precedes(deps: map<int, set<int>>, a: int, b: int) {
    a in Lookup(deps, b)
  }

  /** `b` is recorded as a dependent of `a`. */
  predicate Follows(dnts: map<int, set<int>>, a: int, b: int) {
    b in Lookup(dnts, a)
  }

  /** The two maps describe the same relation, from either end. */
  ghost predicate Mirrored(deps: map<int, set<int>>, dnts: map<int, set<int>>) {
    forall a, b :: Precedes(deps, a, b) <==> Follows(dnts, a, b)
  }

  ghost predicate Transitive(deps: map<int, set<int>>) {
    forall a, b, c :: Precedes(deps, a, b) && Precedes(deps, b, c) ==> Precedes(deps, a, c)
  }

  /** `path` is a walk of at least one edge of `E`. */
  ghost predicate IsPath(E: set<Edge>, path: seq<int>) {
    |path| >= 2 && forall k :: 0 <= k < |path| - 1 ==> (path[k], path[k + 1]) in E
  }

  ghost predicate Reachable(E: set<Edge>, a: int, b: int) {
    exists path :: IsPath(E, path) && path[0] == a && path[|path| - 1] == b
  }

  /** No job reaches itself: the graph is a DAG. */
  ghost predicate Acyclic(E: set<Edge>) {
    forall a :: !Reachable(E, a, a)
  }

  /** `deps` is exactly the transitive closure of `E`: it holds every edge, is transitive and holds only reachable pairs. */
  ghost predicate Closes(E: set<Edge>, deps: map<int, set<int>>) {
    && (forall e :: e in E ==> Precedes(deps, e.0, e.1))
    && Transitive(deps)
    && (forall a, b :: Precedes(deps, a, b) ==> Reachable(E, a, b))
  }

  /** `parent` and every job that already precedes it. */
  function Above(deps: map<int, set<int>>, parent: int): set<int> {
    {parent} + Lookup(deps, parent)
  }

  /** `child` and every job that already follows it. */
  function Below(dnts: map<int, set<int>>, child: int): set<int> {
    {child} + Lookup(dnts, child)
  }

  /** `deps'` is `deps` with every pair of `A` x `B` added and nothing removed. */
  ghost predicate ExtendedBy(deps: map<int, set<int>>, deps': map<int, set<int>>, A: set<int>, B: set<int>) {
    forall a, b :: Precedes(deps', a, b) <==> Precedes(deps, a, b) || (a in A && b in B)
  }

  ghost predicate FollowsExtendedBy(dnts: map<int, set<int>>, dnts': map<int, set<int>>, A: set<int>, B: set<int>) {
    forall a, b :: Follows(dnts', a, b) <==> Follows(dnts, a, b) || (a in A && b in B)
  }

  /** A schedule respects the precedences: no later job must precede an earlier one. */
  predicate ValidSchedule(deps: map<int, set<int>>, s: seq<int>) {
    forall i, j :: 0 <= i < j < |s| ==> !Precedes(deps, s[j], s[i])
  }

  ghost function Extend(deps: map<int, set<int>>, A: set<int>, B: set<int>): (deps': map<int, set<int>>)
    ensures ExtendedBy(deps, deps', A, B)
  {
    var m := map y | y in deps.Keys + B :: Lookup(deps, y) + (if y in B then A else {});
    assert forall y :: Lookup(m, y) == Lookup(deps, y) + (if y in B then A else {});
    m
  }

  lemma ReachEdge(E: set<Edge>, a: int, b: int)
    requires (a, b) in E
    ensures Reachable(E, a, b)
  {
    assert IsPath(E, [a, b]);
  }

  lemma ReachTrans(E: set<Edge>, a: int, b: int, c: int)
    requires Reachable(E, a, b) && Reachable(E, b, c)
    ensures Reachable(E, a, c)
  {
    var p1 :| IsPath(E, p1) && p1[0] == a && p1[|p1| - 1] == b;
    var p2 :| IsPath(E, p2) && p2[0] == b && p2[|p2| - 1] == c;
    var path := p1 + p2[1..];
    forall k | 0 <= k < |path| - 1 ensures (path[k], path[k + 1]) in E {
      if k < |p1| - 1 {
        assert path[k] == p1[k] && path[k + 1] == p1[k + 1];
      } else {
        assert path[k] == p2[k - |p1| + 1] && path[k + 1] == p2[k - |p1| + 2];
      }
    }
    assert IsPath(E, path);
  }

  lemma ReachMono(E: set<Edge>, E': set<Edge>, a: int, b: int)
    requires E <= E' && Reachable(E, a, b)
    ensures Reachable(E', a, b)
  {
    var path :| IsPath(E, path) && path[0] == a && path[|path| - 1] == b;
    assert IsPath(E', path);
  }

  /** A relation that holds every edge and is transitive relates the two ends of every path. */
  lemma {:induction false} PathPrecedes(E: set<Edge>, deps: map<int, set<int>>, path: seq<int>)
    requires IsPath(E, path)
    requires forall e :: e in E ==> Precedes(deps, e.0, e.1)
    requires Transitive(deps)
    ensures Precedes(deps, path[0], path[|path| - 1])
  {
    assert (path[0], path[1]) in E;
    if |path| > 2 {
      var rest := path[1..];
      assert IsPath(E, rest) by {
        forall k | 0 <= k < |rest| - 1 ensures (rest[k], rest[k + 1]) in E {
          assert (path[k + 1], path[k + 2]) in E;
        }
      }
      PathPrecedes(E, deps, rest);
    }
  }

  /** A closure is exactly reachability. */
  lemma ClosureIsReachability(E: set<Edge>, deps: map<int, set<int>>, a: int, b: int)
    requires Closes(E, deps)
    ensures Precedes(deps, a, b) <==> Reachable(E, a, b)
  {
    if Reachable(E, a, b) {
      var path :| IsPath(E, path) && path[0] == a && path[|path| - 1] == b;
      PathPrecedes(E, deps, path);
    }
  }

  /** Adding `A` x `B` to a transitive closure of `E` gives the transitive closure of `E + {(p, c)}`. */
  lemma ExtendCloses(E: set<Edge>, deps: map<int, set<int>>, dnts: map<int, set<int>>, deps': map<int, set<int>>, p: int, c: int)
    requires Closes(E, deps) && Mirrored(deps, dnts)
    requires ExtendedBy(deps, deps', Above(deps, p), Below(dnts, c))
    ensures Closes(E + {(p, c)}, deps')
  {
    var A, B, E' := Above(deps, p), Below(dnts, c), E + {(p, c)};
    forall a, b | Precedes(deps', a, b) ensures Reachable(E', a, b) {
      if Precedes(deps, a, b) {
        ReachMono(E, E', a, b);
      } else {
        assert a in A && b in B;
        ReachEdge(E', p, c);
        if a != p {
          ReachMono(E, E', a, p);
          ReachTrans(E', a, p, c);
        }
        if b != c {
          assert Follows(dnts, c, b);
          ReachMono(E, E', c, b);
          ReachTrans(E', a, c, b);
        }
      }
    }
    forall a, b, x | Precedes(deps', a, b) && Precedes(deps', b, x) ensures Precedes(deps', a, x) {
      if Precedes(deps, a, b) && !Precedes(deps, b, x) {
        assert b in A && x in B;
        if b != p {
          assert Precedes(deps, b, p);
          assert Precedes(deps, a, p);
        }
      } else if !Precedes(deps, a, b) && Precedes(deps, b, x) {
        assert a in A && b in B;
        assert Follows(dnts, b, x);
        if b != c {
          assert Follows(dnts, c, b) && Precedes(deps, c, b);
          assert Precedes(deps, c, x);
          assert Follows(dnts, c, x);
        }
      }
    }
  }

  /** A job in both `Above(p)` and `Below(c)` closes a cycle through the edge `(p, c)`. */
  lemma AboveBelowMeet(deps: map<int, set<int>>, dnts: map<int, set<int>>, p: int, c: int, x: int)
    requires Mirrored(deps, dnts) && Transitive(deps)
    ensures x in Above(deps, p) && x in Below(dnts, c) ==> p == c || Precedes(deps, c, p)
  {
    if x in Above(deps, p) && x in Below(dnts, c) && p != c {
      if x == p {
        assert Follows(dnts, c, p);
      } else if x == c {
        assert Precedes(deps, c, p);
      } else {
        assert Follows(dnts, c, x) && Precedes(deps, x, p);
        assert Precedes(deps, c, x);
      }
    }
  }

  /** The graph stays acyclic exactly when the new edge is not a self-loop and the child does not already precede the parent. */
  lemma CycleCriterion(E: set<Edge>, deps: map<int, set<int>>, dnts: map<int, set<int>>, p: int, c: int)
    requires Closes(E, deps) && Mirrored(deps, dnts) && Acyclic(E)
    ensures Acyclic(E + {(p, c)}) <==> !(p == c || Precedes(deps, c, p))
  {
    var A, B, E' := Above(deps, p), Below(dnts, c), E + {(p, c)};
    var deps' := Extend(deps, A, B);
    ExtendCloses(E, deps, dnts, deps', p, c);
    if p == c {
      ReachEdge(E', p, c);
    } else if Precedes(deps, c, p) {
      ClosureIsReachability(E, deps, c, p);
      ReachMono(E, E', c, p);
      ReachEdge(E', p, c);
      ReachTrans(E', c, p, c);
    } else {
      forall x ensures !Reachable(E', x, x) {
        ClosureIsReachability(E', deps', x, x);
        ClosureIsReachability(E, deps, x, x);
        AboveBelowMeet(deps, dnts, p, c, x);
      }
    }
  }

  /** The empty graph is acyclic. */
  lemma EmptyAcyclic()
    ensures Acyclic({})
  {
    var none: set<Edge> := {};
    forall path: seq<int> ensures !IsPath(none, path) {
      if |path| >= 2 {
        assert (path[0], path[1]) !in none;
      }
    }
  }

  lemma HasElement(s: set<int>)
    ensures s != {} ==> exists x :: x in s
  {
    if forall x :: x !in s {
      assert s == {};
    }
  }

  /** Adds the jobs `extra` to the set of every key in `keys`, one key at a time. */
  method AddToEach(m: map<int, set<int>>, keys: set<int>, extra: set<int>) returns (m': map<int, set<int>>)
    ensures forall y :: Lookup(m', y) == Lookup(m, y) + (if y in keys then extra else {})
  {
    m' := m;
    var todo := keys;
    while todo != {}
      invariant todo <= keys
      invariant forall y :: Lookup(m', y) == Lookup(m, y) + (if y in keys && y !in todo then extra else {})
      decreases todo
    {
      HasElement(todo);
      var key :| key in todo;
      m' := m'[key := Lookup(m', key) + extra];
      todo := todo - {key};
    }
  }

  /** Adding an edge to a graph that has a cycle leaves a cycle. */
  lemma CycleStays(E: set<Edge>, e: Edge)
    requires !Acyclic(E)
    ensures !Acyclic(E + {e})
  {
    var x :| Reachable(E, x, x);
    ReachMono(E, E + {e}, x, x);
  }

  /**
   * The library's acyclicity test, decided from the closure: when `G` extends the
   * closed, acyclic edge set `E` only by a cycle, it is acyclic exactly when the
   * closure holds every edge of `G`, and then it is `E` itself.
   */
  lemma LibraryCheck(E: set<Edge>, G: set<Edge>, deps: map<int, set<int>>)
    requires Closes(E, deps) && Acyclic(E) && E <= G && (G == E || !Acyclic(G))
    ensures Acyclic(G) <==> forall e :: e in G ==> Precedes(deps, e.0, e.1)
    ensures Acyclic(G) ==> G == E
  {
    if forall e :: e in G ==> Precedes(deps, e.0, e.1) {
      forall x ensures !Reachable(G, x, x) {
        if Reachable(G, x, x) {
          var path :| IsPath(G, path) && path[0] == x && path[|path| - 1] == x;
          PathPrecedes(G, deps, path);
        }
      }
    }
  }

  datatype DagError = ValueNotOne | CycleError

  class Dag {
    var dependencies: map<int, set<int>>
    var dependents: map<int, set<int>>
    /** The edges held by the graph library, in the order-free form it keeps them, a rejected edge included. */
    var graph: set<Edge>
    /** The accepted edges, whose transitive closure the two maps hold. */
    ghost var edges: set<Edge>

    /**
     * The maps mirror each other and hold the closure of the accepted edges, which
     * has no cycle; the library's graph holds these edges and, past a rejected
     * insertion, a cycle as well.
     */
    ghost predicate Valid()
      reads this
    {
      && Mirrored(dependencies, dependents) && Closes(edges, dependencies) && Acyclic(edges)
      && edges <= graph && (graph == edges || !Acyclic(graph))
    }

    constructor ()
      ensures Valid()
      ensures graph == {} && edges == {}
      ensures forall a, b :: !Precedes(dependencies, a, b) && !Follows(dependents, a, b)
    {
      dependencies := map[];
      dependents := map[];
      graph := {};
      edges := {};
      new;
      EmptyAcyclic();
    }

    /** `G[x, y]`: 1 when `x` must precede `y`, else 0 (unknown jobs read as 0). */
    function Get(x: int, y: int): (r: int)
      reads this
      ensures r == 0 || r == 1
      ensures r == 1 <==> x in Lookup(dependencies, y)
    {
      if x in Lookup(dependencies, y) then 1 else 0
    }

    /** Records every pair of `Above(parent)` x `Below(child)` in both maps. */
    method AddDependency(parent: int, child: int)
      modifies this`dependencies, this`dependents
      ensures ExtendedBy(old(dependencies), dependencies, old(Above(dependencies, parent)), old(Below(dependents, child)))
      ensures FollowsExtendedBy(old(dependents), dependents, old(Above(dependencies, parent)), old(Below(dependents, child)))
    {
      var above := Above(dependencies, parent);
      var below := Below(dependents, child);
      dependencies := AddToEach(dependencies, below, above);
      dependents := AddToEach(dependents, above, below);
    }

    /**
     * `G[parent, child] = value`: adds the edge to the library's graph, rejects it
     * when that graph then has a cycle, and otherwise propagates the closure.
     */
    method SetItem(key: Edge, value: int) returns (r: Outcome<DagError>)
      requires Valid()
      modifies this
      ensures Valid()
      ensures r == Fail(ValueNotOne) <==> value != 1
      ensures r == Fail(CycleError) <==> value == 1 && !Acyclic(old(graph) + {key})
      ensures graph == if value == 1 then old(graph) + {key} else old(graph)
      ensures r.Fail? ==> edges == old(edges) && dependencies == old(dependencies) && dependents == old(dependents)
      ensures r.Pass? ==> edges == graph && Get(key.0, key.1) == 1
      ensures r.Pass? ==> ExtendedBy(old(dependencies), dependencies, old(Above(dependencies, key.0)), old(Below(dependents, key.1)))
    {
      if value != 1 {
        return Fail(ValueNotOne);
      }
      var (parent, child) := key;
      var closed := forall e | e in graph :: Precedes(dependencies, e.0, e.1);
      LibraryCheck(edges, graph, dependencies);
      ghost var G0 := graph;
      graph := graph + {(parent, child)};
      if !closed {
        // an earlier rejected edge already closed a cycle
        CycleStays(G0, key);
        return Fail(CycleError);
      }
      CycleCriterion(G0, dependencies, dependents, parent, child);
      if parent == child || Precedes(dependencies, child, parent) {
        return Fail(CycleError);
      }
      ghost var deps0, dnts0 := dependencies, dependents;
      AddDependency(parent, child);
      ExtendCloses(G0, deps0, dnts0, dependencies, parent, child);
      edges := graph;
      r := Pass;
    }

    /**
     * `G[parent, child] = value` as evidently intended: a rejected edge is taken out
     * of the library's graph again, so the graph never holds more than the accepted
     * edges and a rejection does not affect later insertions.
     */
    method SetItemRestoring(key: Edge, value: int) returns (r: Outcome<DagError>)
      requires Valid() && graph == edges
      modifies this
      ensures Valid() && graph == edges
      ensures r == Fail(ValueNotOne) <==> value != 1
      ensures r == Fail(CycleError) <==> value == 1 && !Acyclic(old(graph) + {key})
      ensures r.Fail? ==> graph == old(graph) && dependencies == old(dependencies) && dependents == old(dependents)
      ensures r.Pass? ==> graph == old(graph) + {key} && Get(key.0, key.1) == 1
      ensures r.Pass? ==> ExtendedBy(old(dependencies), dependencies, old(Above(dependencies, key.0)), old(Below(dependents, key.1)))
    {
      var before := graph;
      r := SetItem(key, value);
      if r.Fail? {
        graph := before;
      }
    }

    /** `check_valid`: the nested loop of dag.py with its early return. */
    method CheckValid(schedule: seq<int>) returns (b: bool)
      ensures b <==> ValidSchedule(dependencies, schedule)
    {
      for i := 0 to |schedule|
        invariant forall i', j :: 0 <= i' < i && i' < j < |schedule| ==> !Precedes(dependencies, schedule[j], schedule[i'])
      {
        for j := i + 1 to |schedule|
          invariant forall j' :: i < j' < j ==> !Precedes(dependencies, schedule[j'], schedule[i])
        {
          if Get(schedule[j], schedule[i]) == 1 {
            return false;
          }
        }
      }
      return true;
    }
  }

  /** Under the object invariant `G[x, y] == 1` holds exactly when the accepted edges have a path from `x` to `y`. */
  lemma GetIsReachability(g: Dag, x: int, y: int)
    requires g.Valid()
    ensures g.Get(x, y) == 1 <==> Reachable(g.edges, x, y)
  {
    ClosureIsReachability(g.edges, g.dependencies, x, y);
  }

  /** Under the acyclicity guarantee no job depends on itself. */
  lemma NoSelfDependency(g: Dag, x: int)
    requires g.Valid()
    ensures g.Get(x, x) == 0
  {
    GetIsReachability(g, x, x);
  }

  /** The two maps are mirror images, and the relation they hold is transitive. */
  lemma MirrorAndTransitive(g: Dag, a: int, b: int, c: int)
    requires g.Valid()
    ensures g.Get(a, b) == 1 <==> b in Lookup(g.dependents, a)
    ensures g.Get(a, b) == 1 && g.Get(b, c) == 1 ==> g.Get(a, c) == 1
  {
    assert Precedes(g.dependencies, a, b) <==> Follows(g.dependents, a, b);
    if g.Get(a, b) == 1 && g.Get(b, c) == 1 {
      assert Precedes(g.dependencies, a, b) && Precedes(g.dependencies, b, c);
    }
  }

  /**
   * Once an insertion has been rejected, the library's graph keeps the cycle it
   * closed, so every later insertion is rejected as well.
   */
  lemma RejectionSticks(g: Dag, key: Edge)
    requires g.Valid() && g.graph != g.edges
    ensures !Acyclic(g.graph + {key})
  {
    CycleStays(g.graph, key);
  }

  /** `G[1, 2] = 1` is accepted, `G[2, 1] = 1` is rejected, and after it `G[3, 4] = 1` is rejected too. */
  method RejectedEdgeStays() returns (r1: Outcome<DagError>, r2: Outcome<DagError>, r3: Outcome<DagError>)
    ensures r1 == Pass && r2 == Fail(CycleError) && r3 == Fail(CycleError)
  {
    var g := new Dag();
    CycleCriterion(g.edges, g.dependencies, g.dependents, 1, 2);
    assert g.graph + {(1, 2)} == {(1, 2)};
    r1 := g.SetItem((1, 2), 1);
    var E2: set<Edge> := {(1, 2), (2, 1)};
    ReachEdge(E2, 1, 2);
    ReachEdge(E2, 2, 1);
    ReachTrans(E2, 1, 2, 1);
    assert g.graph + {(2, 1)} == E2;
    r2 := g.SetItem((2, 1), 1);
    CycleStays(E2, (3, 4));
    r3 := g.SetItem((3, 4), 1);
  }

  /** With the rejected edge taken out again, `G[3, 4] = 1` is accepted after `G[2, 1] = 1` was rejected. */
  method RestoredEdgeAccepts() returns (r1: Outcome<DagError>, r2: Outcome<DagError>, r3: Outcome<DagError>)
    ensures r1 == Pass && r2 == Fail(CycleError) && r3 == Pass
  {
    var g := new Dag();
    CycleCriterion(g.edges, g.dependencies, g.dependents, 1, 2);
    assert g.graph + {(1, 2)} == {(1, 2)};
    r1 := g.SetItemRestoring((1, 2), 1);
    match r1 {
      case Pass =>
      case Fail(e) =>
        match e {
          case ValueNotOne => assert false;
          case CycleError => assert false;
        }
    }
    var E2: set<Edge> := {(1, 2), (2, 1)};
    ReachEdge(E2, 1, 2);
    ReachEdge(E2, 2, 1);
    ReachTrans(E2, 1, 2, 1);
    assert g.graph + {(2, 1)} == E2;
    r2 := g.SetItemRestoring((2, 1), 1);
    assert !Precedes(g.dependencies, 4, 3);
    CycleCriterion(g.edges, g.dependencies, g.dependents, 3, 4);
    r3 := g.SetItemRestoring((3, 4), 1);
    match r3 {
      case Pass =>
      case Fail(e) =>
        match e {
          case ValueNotOne => assert false;
          case CycleError => assert false;
        }
    }
  }
}
