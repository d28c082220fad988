/** Finite directed graphs over definition positions, and reachability in them. */
module Graphs {

  // `g[i]` is the set of positions that position `i` depends on.
  type Graph = seq<set<nat>>

  ghost predicate WellFormed(g: Graph) {
    forall i: nat, j: nat :: i < |g| && j in g[i] ==> j < |g|
  }

  // `b` can be reached from `a` by following exactly `n` edges.
  ghost predicate ReachIn(g: Graph, n: nat, a: nat, b: nat)
    decreases n
  {
    && a < |g|
    && b < |g|
    && if n == 0 then a == b else exists c: nat :: c in g[a] && ReachIn(g, n - 1, c, b)
  }

  // Zero or more edges.
  ghost predicate Reach(g: Graph, a: nat, b: nat) {
    exists n: nat :: ReachIn(g, n, a, b)
  }

  // One or more edges: on the diagonal this says that `a` lies on a cycle.
  ghost predicate ReachPlus(g: Graph, a: nat, b: nat) {
    && a < |g|
    && exists c: nat :: c in g[a] && Reach(g, c, b)
  }

  ghost predicate Closed(g: Graph, s: set<nat>) {
    forall x: nat, y: nat :: x in s && x < |g| && y in g[x] ==> y in s
  }

  // The subgraph on the positions in `keep`.
  function Restrict(g: Graph, keep: set<nat>): (r: Graph)
    ensures |r| == |g|
    ensures forall i :: 0 <= i < |g| ==> r[i] == if i in keep then g[i] * keep else {}
  {
    seq(|g|, i requires 0 <= i < |g| => if i in keep then g[i] * keep else {})
  }

  lemma ReachRefl(g: Graph, a: nat)
    requires a < |g|
    ensures Reach(g, a, a)
  {
    assert ReachIn(g, 0, a, a);
  }

  lemma ReachEdge(g: Graph, a: nat, b: nat)
    requires WellFormed(g) && a < |g| && b in g[a]
    ensures Reach(g, a, b)
  {
    assert ReachIn(g, 0, b, b);
    assert ReachIn(g, 1, a, b);
  }

  lemma {:induction false} ReachInTrans(g: Graph, n: nat, m: nat, a: nat, b: nat, c: nat)
    requires ReachIn(g, n, a, b) && ReachIn(g, m, b, c)
    ensures ReachIn(g, n + m, a, c)
    decreases n
  {
    if n > 0 {
      var d: nat :| d in g[a] && ReachIn(g, n - 1, d, b);
      ReachInTrans(g, n - 1, m, d, b, c);
      assert ReachIn(g, n + m - 1, d, c);
    }
  }

  lemma ReachTrans(g: Graph, a: nat, b: nat, c: nat)
    requires Reach(g, a, b) && Reach(g, b, c)
    ensures Reach(g, a, c)
  {
    var n: nat :| ReachIn(g, n, a, b);
    var m: nat :| ReachIn(g, m, b, c);
    ReachInTrans(g, n, m, a, b, c);
  }

  // Two distinct positions that reach each other lie on a cycle.
  lemma MutualReachIsCycle(g: Graph, a: nat, b: nat)
    requires WellFormed(g) && a != b && Reach(g, a, b) && Reach(g, b, a)
    ensures ReachPlus(g, a, a)
  {
    var n: nat :| ReachIn(g, n, a, b);
    var c: nat :| c in g[a] && ReachIn(g, n - 1, c, b);
    assert Reach(g, c, b);
    ReachTrans(g, c, b, a);
  }

  lemma {:induction false} ClosedReachIn(g: Graph, s: set<nat>, n: nat, a: nat, b: nat)
    requires Closed(g, s) && a in s && ReachIn(g, n, a, b)
    ensures b in s
    decreases n
  {
    if n > 0 {
      var c: nat :| c in g[a] && ReachIn(g, n - 1, c, b);
      ClosedReachIn(g, s, n - 1, c, b);
    }
  }

  // Nothing outside a closed set can be reached from inside it.
  lemma ClosedReach(g: Graph, s: set<nat>, a: nat, b: nat)
    requires Closed(g, s) && a in s && Reach(g, a, b)
    ensures b in s
  {
    var n: nat :| ReachIn(g, n, a, b);
    ClosedReachIn(g, s, n, a, b);
  }

  lemma {:induction false} RestrictReachIn(g: Graph, keep: set<nat>, n: nat, a: nat, b: nat)
    requires ReachIn(Restrict(g, keep), n, a, b)
    ensures ReachIn(g, n, a, b)
    decreases n
  {
    if n > 0 {
      var c: nat :| c in Restrict(g, keep)[a] && ReachIn(Restrict(g, keep), n - 1, c, b);
      RestrictReachIn(g, keep, n - 1, c, b);
    }
  }

  // A path of the subgraph is a path of the graph.
  lemma RestrictReach(g: Graph, keep: set<nat>, a: nat, b: nat)
    requires Reach(Restrict(g, keep), a, b)
    ensures Reach(g, a, b)
  {
    var n: nat :| ReachIn(Restrict(g, keep), n, a, b);
    RestrictReachIn(g, keep, n, a, b);
  }
}
