/** Finite directed graphs given by successor sets, with the facts about walks that
    the module loader and the bundler need. */
module Graph {

  type Digraph = map<nat, set<nat>>

  ghost predicate Edge(g: Digraph, u: nat, v: nat) {
    u in g && v in g[u]
  }

  ghost predicate IsWalk(g: Digraph, p: seq<nat>) {
    forall i :: 0 <= i < |p| - 1 ==> Edge(g, p[i], p[i + 1])
  }

  ghost predicate WalkFromTo(g: Digraph, p: seq<nat>, u: nat, v: nat) {
    |p| >= 2 && p[0] == u && p[|p| - 1] == v && IsWalk(g, p)
  }

  /** There is a non-empty walk of edges from u to v. */
  ghost predicate HasPath(g: Digraph, u: nat, v: nat) {
    exists p :: WalkFromTo(g, p, u, v)
  }

  ghost predicate Acyclic(g: Digraph) {
    forall v :: !HasPath(g, v, v)
  }

  ghost predicate Subgraph(g: Digraph, h: Digraph) {
    forall u, v :: Edge(g, u, v) ==> Edge(h, u, v)
  }

  lemma EdgePath(g: Digraph, u: nat, v: nat)
    requires Edge(g, u, v)
    ensures HasPath(g, u, v)
  {
    assert WalkFromTo(g, [u, v], u, v);
  }

  lemma PathTransitive(g: Digraph, u: nat, v: nat, w: nat)
    requires HasPath(g, u, v) && HasPath(g, v, w)
    ensures HasPath(g, u, w)
  {
    var p :| WalkFromTo(g, p, u, v);
    var q :| WalkFromTo(g, q, v, w);
    var r := p + q[1..];
    forall i | 0 <= i < |r| - 1
      ensures Edge(g, r[i], r[i + 1])
    {
      if i < |p| - 1 {
        assert Edge(g, p[i], p[i + 1]);
      } else {
        assert r[i] == q[i - |p| + 1] && r[i + 1] == q[i - |p| + 2];
      }
    }
    assert WalkFromTo(g, r, u, w);
  }

  lemma ExtendReach(g: Digraph, u: nat, v: nat, w: nat)
    requires (v == u || HasPath(g, u, v)) && Edge(g, v, w)
    ensures HasPath(g, u, w)
  {
    EdgePath(g, v, w);
    if v != u {
      PathTransitive(g, u, v, w);
    }
  }

  lemma SubgraphPath(g: Digraph, h: Digraph, u: nat, v: nat)
    requires Subgraph(g, h) && HasPath(g, u, v)
    ensures HasPath(h, u, v)
  {
    var p :| WalkFromTo(g, p, u, v);
    assert WalkFromTo(h, p, u, v);
  }

  lemma SubgraphAcyclic(g: Digraph, h: Digraph)
    requires Subgraph(g, h) && Acyclic(h)
    ensures Acyclic(g)
  {
    forall v | HasPath(g, v, v)
      ensures false
    {
      SubgraphPath(g, h, v, v);
    }
  }

  /** A set that the search has closed, and that never steps to the target, shows
      that there is no path to the target. Successors that have no out-edges of their
      own need not be in the set. */
  lemma ClosedSetNoPath(g: Digraph, closed: set<nat>, u: nat, target: nat)
    requires u in closed
    requires forall x, y :: x in closed && Edge(g, x, y) ==> y != target && (y in g ==> y in closed)
    ensures !HasPath(g, u, target)
  {
    forall p | WalkFromTo(g, p, u, target)
      ensures false
    {
      assert Edge(g, p[|p| - 2], p[|p| - 1]);
      WalkStaysInside(g, closed, p, |p| - 2);
    }
  }

  lemma {:induction false} WalkStaysInside(g: Digraph, closed: set<nat>, p: seq<nat>, k: nat)
    requires k < |p| - 1 && IsWalk(g, p) && p[0] in closed
    requires forall x, y :: x in closed && Edge(g, x, y) ==> (y in g ==> y in closed)
    ensures p[k] in closed
  {
    if k > 0 {
      WalkStaysInside(g, closed, p, k - 1);
      assert Edge(g, p[k - 1], p[k]) && Edge(g, p[k], p[k + 1]);
    }
  }

  /** A set closed under edges holds everything reachable from its members. */
  lemma ReachStaysInside(g: Digraph, closed: set<nat>, u: nat, v: nat)
    requires u in closed && HasPath(g, u, v)
    requires forall x, y :: x in closed && Edge(g, x, y) ==> y in closed
    ensures v in closed
  {
    var p :| WalkFromTo(g, p, u, v);
    WalkStaysInside(g, closed, p, |p| - 2);
    assert Edge(g, p[|p| - 2], p[|p| - 1]);
  }

  /** How a path in g plus the edge (m, d) looks from g. */
  lemma {:induction false} PathWithNewEdge(g: Digraph, h: Digraph, m: nat, d: nat, p: seq<nat>)
    requires forall u, v :: Edge(h, u, v) ==> Edge(g, u, v) || (u == m && v == d)
    requires |p| >= 2 && IsWalk(h, p)
    ensures HasPath(g, p[0], p[|p| - 1])
         || ((p[0] == m || HasPath(g, p[0], m)) && (p[|p| - 1] == d || HasPath(g, d, p[|p| - 1])))
  {
    var a, c, b := p[0], p[1], p[|p| - 1];
    assert Edge(h, a, c);
    if Edge(g, a, c) {
      EdgePath(g, a, c);
    }
    if |p| > 2 {
      var q := p[1..];
      forall i | 0 <= i < |q| - 1
        ensures Edge(h, q[i], q[i + 1])
      {
        assert Edge(h, p[i + 1], p[i + 2]);
      }
      PathWithNewEdge(g, h, m, d, q);
      if HasPath(g, a, c) {
        if HasPath(g, c, b) {
          PathTransitive(g, a, c, b);
        } else if c != m {
          PathTransitive(g, a, c, m);
        }
      }
    }
  }

  /** Adding an edge that no path leads back along keeps a graph acyclic. */
  lemma AcyclicAfterEdge(g: Digraph, h: Digraph, m: nat, d: nat)
    requires Acyclic(g)
    requires forall u, v :: Edge(h, u, v) ==> Edge(g, u, v) || (u == m && v == d)
    requires m != d && !HasPath(g, d, m)
    ensures Acyclic(h)
  {
    forall v | HasPath(h, v, v)
      ensures false
    {
      var p :| WalkFromTo(h, p, v, v);
      PathWithNewEdge(g, h, m, d, p);
      if v != m && v != d {
        PathTransitive(g, d, v, m);
      }
    }
  }

  // ---------- breadth-first search ----------

  /** The queue lists each id that was seen and not expanded, once. */
  ghost predicate Queued(queue: seq<nat>, seen: set<nat>, expanded: set<nat>) {
    && (forall i, j :: 0 <= i < j < |queue| ==> queue[i] != queue[j])
    && (forall x :: x in queue <==> x in seen && x !in expanded)
    && expanded <= seen
  }

  lemma QueueStarts(x: nat)
    ensures Queued([x], {x}, {})
  {
  }

  lemma QueueEnds(seen: set<nat>, expanded: set<nat>)
    requires Queued([], seen, expanded)
    ensures expanded == seen
  {
    forall x
      ensures x in seen <==> x in expanded
    {
      assert x !in [];
    }
  }

  lemma QueuePops(queue: seq<nat>, seen: set<nat>, expanded: set<nat>)
    requires Queued(queue, seen, expanded) && queue != []
    ensures queue[0] in seen && queue[0] !in expanded
    ensures Queued(queue[1..], seen, expanded + {queue[0]})
  {
    assert queue == [queue[0]] + queue[1..];
  }

  lemma QueuedMember(queue: seq<nat>, seen: set<nat>, expanded: set<nat>, x: nat)
    requires Queued(queue, seen, expanded)
    ensures x in seen <==> x in queue || x in expanded
  {
  }

  lemma QueuePushes(queue: seq<nat>, seen: set<nat>, expanded: set<nat>, x: nat)
    requires Queued(queue, seen, expanded) && x !in seen
    ensures Queued(queue + [x], seen + {x}, expanded)
  {
  }

  /** What a search from u for `target` knows: everything seen is reachable, and the
      expanded part has shown all its successors, none of them the target. */
  ghost predicate Searched(g: Digraph, u: nat, target: nat, seen: set<nat>, expanded: set<nat>) {
    && u in seen
    && (forall x :: x in seen ==> x == u || HasPath(g, u, x))
    && (forall x, y :: x in expanded && Edge(g, x, y) ==> y != target && (y in g ==> y in seen))
  }

  lemma SearchStarts(g: Digraph, u: nat, target: nat)
    ensures Searched(g, u, target, {u}, {})
  {
  }

  lemma SearchSinks(g: Digraph, u: nat, target: nat)
    requires u !in g
    ensures !HasPath(g, u, target)
  {
    ClosedSetNoPath(g, {u}, u, target);
  }

  lemma SearchHits(g: Digraph, u: nat, target: nat, seen: set<nat>, expanded: set<nat>, x: nat)
    requires Searched(g, u, target, seen, expanded) && x in seen && Edge(g, x, target)
    ensures HasPath(g, u, target)
  {
    ExtendReach(g, u, x, target);
  }

  lemma SearchEnds(g: Digraph, u: nat, target: nat, seen: set<nat>, expanded: set<nat>)
    requires Searched(g, u, target, seen, expanded) && seen <= expanded
    ensures !HasPath(g, u, target)
  {
    ClosedSetNoPath(g, expanded, u, target);
  }

  lemma SearchExpands(g: Digraph, u: nat, target: nat, seen: set<nat>, expanded: set<nat>, x: nat, found: set<nat>)
    requires Searched(g, u, target, seen, expanded) && x in seen
    requires forall y :: y in found ==> Edge(g, x, y)
    requires forall y :: Edge(g, x, y) ==> y != target && (y in g ==> y in found || y in seen)
    ensures Searched(g, u, target, seen + found, expanded + {x})
  {
    forall y | y in found
      ensures HasPath(g, u, y)
    {
      ExtendReach(g, u, x, y);
    }
  }

  /** What an exhaustive search from u knows. */
  ghost predicate Explored(g: Digraph, u: nat, seen: set<nat>, expanded: set<nat>) {
    && u in seen && expanded <= seen
    && (forall x :: x in seen ==> x == u || HasPath(g, u, x))
    && (forall x, y :: x in expanded && Edge(g, x, y) ==> y in seen)
  }

  lemma ExploreExpands(g: Digraph, u: nat, seen: set<nat>, expanded: set<nat>, x: nat, found: set<nat>)
    requires Explored(g, u, seen, expanded) && x in seen
    requires forall y :: y in found <==> Edge(g, x, y)
    ensures Explored(g, u, seen + found, expanded + {x})
  {
    forall y | y in found
      ensures HasPath(g, u, y)
    {
      ExtendReach(g, u, x, y);
    }
  }

  /** A finished search has seen exactly what is reachable. */
  lemma ExploreEnds(g: Digraph, u: nat, seen: set<nat>)
    requires Explored(g, u, seen, seen)
    ensures forall x :: x in seen <==> x == u || HasPath(g, u, x)
  {
    forall x | HasPath(g, u, x)
      ensures x in seen
    {
      ReachStaysInside(g, seen, u, x);
    }
  }

  ghost predicate StepsInside(g: Digraph, s: set<nat>, u: nat) {
    exists v :: v in s && Edge(g, u, v)
  }

  ghost function ReachableIn(g: Digraph, s: set<nat>, u: nat): set<nat> {
    set v | v in s && HasPath(g, u, v)
  }

  /** In an acyclic graph every non-empty finite set has a member with no successor
      inside the set: following successors shrinks what is still reachable. */
  lemma {:induction false} SinkExists(g: Digraph, s: set<nat>, x: nat)
    requires Acyclic(g) && x in s
    ensures exists u :: u in s && !StepsInside(g, s, u)
    decreases ReachableIn(g, s, x)
  {
    if StepsInside(g, s, x) {
      var y :| y in s && Edge(g, x, y);
      EdgePath(g, x, y);
      forall v | v in ReachableIn(g, s, y)
        ensures v in ReachableIn(g, s, x)
      {
        PathTransitive(g, x, y, v);
      }
      assert y in ReachableIn(g, s, x) - ReachableIn(g, s, y);
      SinkExists(g, s, y);
    }
  }
}
