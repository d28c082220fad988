/** Placing definitions on demand: the rule the depth-first scheduling follows, that it
    has one solution, and which dependencies it puts first. */
module DefinitionChains {
  import opened Graphs
  import opened Sequences

  // The state of the depth-first scheduling: what has been placed, in order, and
  // what is being visited. `g` is the graph between incomplete definitions.
  ghost predicate Placed(g: Graph, placed: set<nat>, ordered: seq<nat>) {
    && Distinct(ordered)
    && (forall x :: x in placed <==> x in ordered)
    && (forall x :: x in placed ==> x < |g|)
    && DirectEdgesFirst(g, ordered)
  }

  // Every direct dependency comes before its user, unless it depends on the user in turn.
  ghost predicate DirectEdgesFirst(g: Graph, ordered: seq<nat>) {
    forall p {:trigger DependenciesFirst(g, ordered[..p], ordered[p])} ::
      0 <= p < |ordered| ==> DependenciesFirst(g, ordered[..p], ordered[p])
  }

  ghost predicate DependenciesFirst(g: Graph, before: seq<nat>, x: nat) {
    x < |g| ==> forall d: nat :: d in g[x] && !Reach(g, d, x) ==> d in before
  }

  /** A chain of needs: everything smaller than its first link is placed, and each next
      link is a dependency of the one before it whose smaller siblings are all placed
      or already in the chain. */
  ghost predicate FirstChain(g: Graph, all: set<nat>, placed: set<nat>, chain: seq<nat>) {
    && chain != []
    && if |chain| == 1 then
         chain[0] in all && forall i: nat :: i in all && i < chain[0] ==> i in placed
       else
         var front := chain[..|chain| - 1];
         && FirstChain(g, all, placed, front)
         && FirstNeed(g, placed, front, chain[|chain| - 1])
  }

  ghost predicate FirstNeed(g: Graph, placed: set<nat>, front: seq<nat>, x: nat)
    requires front != []
  {
    var user := front[|front| - 1];
    && user < |g| && x in g[user]
    && forall d: nat :: d in g[user] && d < x ==> d in placed || d in front
  }

  /** Such a chain, all of it still to be placed. */
  ghost predicate OpenChain(g: Graph, all: set<nat>, before: seq<nat>, chain: seq<nat>) {
    && chain != []
    && FirstChain(g, all, Members(before), chain)
    && Distinct(chain) && (forall y :: y in chain ==> y !in before)
  }

  /** An open chain whose last link has nothing left to wait for: all its dependencies
      are placed or in the chain. */
  ghost predicate DueChain(g: Graph, all: set<nat>, before: seq<nat>, chain: seq<nat>) {
    OpenChain(g, all, before, chain) && Satisfied(g, before, chain)
  }

  ghost predicate Satisfied(g: Graph, before: seq<nat>, chain: seq<nat>) {
    && chain != [] && chain[|chain| - 1] < |g|
    && forall d: nat :: d in g[chain[|chain| - 1]] ==> d in before || d in chain
  }

  // Each definition is placed at the end of such a chain.
  ghost predicate OnDemand(g: Graph, all: set<nat>, ordered: seq<nat>) {
    forall p {:trigger Demanded(g, all, ordered[..p], ordered[p])} ::
      0 <= p < |ordered| ==> Demanded(g, all, ordered[..p], ordered[p])
  }

  ghost predicate Demanded(g: Graph, all: set<nat>, before: seq<nat>, x: nat) {
    exists chain :: DueChain(g, all, before, chain) && chain[|chain| - 1] == x
  }

  function Members(q: seq<nat>): set<nat> {
    set x | x in q
  }

  lemma MembersMean(q: seq<nat>)
    ensures forall y: nat :: y in Members(q) <==> y in q
  {
  }

  lemma MembersGrow(q: seq<nat>, x: nat)
    ensures Members(q + [x]) == Members(q) + {x}
  {
  }

  lemma {:induction false} ChainStays(g: Graph, all: set<nat>, placed: set<nat>, more: set<nat>, chain: seq<nat>)
    requires FirstChain(g, all, placed, chain) && placed <= more
    ensures FirstChain(g, all, more, chain)
  {
    if |chain| > 1 {
      ChainStays(g, all, placed, more, chain[..|chain| - 1]);
    }
  }

  lemma ChainNotEmpty(g: Graph, all: set<nat>, placed: set<nat>, chain: seq<nat>)
    requires FirstChain(g, all, placed, chain)
    ensures chain != []
  {
  }

  lemma ChainGrows(g: Graph, all: set<nat>, placed: set<nat>, chain: seq<nat>, x: nat)
    requires FirstChain(g, all, placed, chain) && FirstNeed(g, placed, chain, x)
    ensures FirstChain(g, all, placed, chain + [x])
  {
    assert (chain + [x])[..|chain|] == chain;
  }

  // Every link of a chain reaches its last link.
  lemma {:induction false} ChainReaches(g: Graph, all: set<nat>, placed: set<nat>, chain: seq<nat>, k: nat)
    requires WellFormed(g) && FirstChain(g, all, placed, chain) && chain[0] < |g| && k < |chain|
    ensures chain[|chain| - 1] < |g| && Reach(g, chain[k], chain[|chain| - 1])
  {
    hide Reach;
    var front, x := chain[..|chain| - 1], chain[|chain| - 1];
    if |chain| > 1 {
      var link := if k < |front| then k else 0;
      ChainReaches(g, all, placed, front, link);
      ReachEdge(g, front[|front| - 1], x);
      ReachTrans(g, front[link], front[|front| - 1], x);
    }
    if k == |front| {
      ReachRefl(g, x);
    }
  }

  lemma PlaceOne(g: Graph, placed: set<nat>, ordered: seq<nat>, x: nat)
    requires Placed(g, placed, ordered) && x < |g| && x !in placed
    requires DependenciesFirst(g, ordered, x)
    ensures Placed(g, placed + {x}, ordered + [x])
  {
    hide DependenciesFirst;
    var next := ordered + [x];
    forall p | 0 <= p < |next| ensures DependenciesFirst(g, next[..p], next[p]) {
      assert p < |ordered| ==> next[..p] == ordered[..p];
      assert p == |ordered| ==> next[..p] == ordered;
    }
    assert Distinct([x]);
    DistinctAppend(ordered, [x]);
  }

  lemma DemandOne(g: Graph, all: set<nat>, placed: set<nat>, ordered: seq<nat>, chain: seq<nat>)
    requires OnDemand(g, all, ordered) && (forall x :: x in placed <==> x in ordered)
    requires FirstChain(g, all, placed, chain) && Distinct(chain) && Satisfied(g, ordered, chain)
    requires forall y :: y in chain ==> y !in ordered
    ensures OnDemand(g, all, ordered + [chain[|chain| - 1]])
  {
    assert chain != [];
    hide Satisfied, Distinct, FirstChain;
    var x := chain[|chain| - 1];
    var next := ordered + [x];
    assert Members(ordered) == placed;
    assert DueChain(g, all, ordered, chain);
    assert Demanded(g, all, ordered, x);
    hide Demanded, DueChain;
    forall p | 0 <= p < |next| ensures Demanded(g, all, next[..p], next[p]) {
      assert p < |ordered| ==> next[..p] == ordered[..p];
      assert p == |ordered| ==> next[..p] == ordered;
    }
  }

  lemma OneMoreLink(front: seq<nat>, x: nat)
    requires Distinct(front) && x !in front
    ensures Distinct(front + [x])
  {
    assert Distinct([x]);
    DistinctAppend(front, [x]);
  }

  // `j` is placed before `i`.
  ghost predicate Precedes(order: seq<nat>, j: nat, i: nat) {
    exists p, q :: 0 <= p < q < |order| && order[p] == j && order[q] == i
  }

  lemma PrecedesInPrefix(order: seq<nat>, q: nat, j: nat)
    requires q < |order| && j in order[..q]
    ensures Precedes(order, j, order[q])
  {
    var p :| 0 <= p < q && order[..q][p] == j;
    assert order[p] == j;
  }

  lemma NotInPrefix(q: seq<nat>, p: nat, i: nat)
    requires Distinct(q) && p <= i < |q|
    ensures q[i] !in q[..p]
  {
  }

  lemma {:induction false} ChainStart(g: Graph, all: set<nat>, placed: set<nat>, chain: seq<nat>)
    requires FirstChain(g, all, placed, chain)
    ensures chain[0] in all && forall i: nat :: i in all && i < chain[0] ==> i in placed
  {
    if |chain| > 1 {
      ChainStart(g, all, placed, chain[..|chain| - 1]);
    }
  }

  lemma DemandBound(g: Graph, all: set<nat>, before: seq<nat>, i: nat, j: nat) returns (root: nat)
    requires WellFormed(g) && (forall x :: x in all ==> x < |g|)
    requires Demanded(g, all, before, j) && i in all && i !in before
    ensures root <= i && root in all && Reach(g, root, j)
  {
    hide Reach, WellFormed;
    var chain :| DueChain(g, all, before, chain) && chain[|chain| - 1] == j;
    ChainStart(g, all, Members(before), chain);
    ChainReaches(g, all, Members(before), chain, 0);
    root := chain[0];
  }

  // Two open chains that agree so far agree on the next link.
  lemma SameNextLink(g: Graph, placed: set<nat>, front: seq<nat>, a: nat, b: nat)
    requires front != [] && FirstNeed(g, placed, front, a) && FirstNeed(g, placed, front, b)
    requires a !in placed && a !in front && b !in placed && b !in front
    ensures a == b
  {
  }

  lemma {:induction false} ChainPrefix(g: Graph, all: set<nat>, placed: set<nat>, chain: seq<nat>, k: nat)
    requires FirstChain(g, all, placed, chain) && 0 < k < |chain|
    ensures FirstNeed(g, placed, chain[..k], chain[k])
  {
    if k < |chain| - 1 {
      ChainPrefix(g, all, placed, chain[..|chain| - 1], k);
      assert chain[..|chain| - 1][..k] == chain[..k];
    }
  }

  lemma {:induction false} SameChainUpTo(
      g: Graph, all: set<nat>, before: seq<nat>, a: seq<nat>, b: seq<nat>, k: nat)
    requires OpenChain(g, all, before, a) && OpenChain(g, all, before, b)
    requires k <= |a| && k <= |b|
    ensures a[..k] == b[..k]
  {
    hide FirstChain, FirstNeed, Members;
    MembersMean(before);
    if k == 1 {
      ChainStart(g, all, Members(before), a);
      ChainStart(g, all, Members(before), b);
      assert a[0] in a && b[0] in b;
    } else if k > 1 {
      SameChainUpTo(g, all, before, a, b, k - 1);
      var front := a[..k - 1];
      ChainPrefix(g, all, Members(before), a, k - 1);
      ChainPrefix(g, all, Members(before), b, k - 1);
      NotInPrefix(a, k - 1, k - 1);
      NotInPrefix(b, k - 1, k - 1);
      assert a[k - 1] in a && b[k - 1] in b;
      SameNextLink(g, Members(before), front, a[k - 1], b[k - 1]);
      assert a[..k] == front + [a[k - 1]] && b[..k] == front + [b[k - 1]];
    }
  }

  // An open chain is the start of the due chain.
  lemma OpenIsPrefix(g: Graph, all: set<nat>, before: seq<nat>, a: seq<nat>, b: seq<nat>)
    requires OpenChain(g, all, before, a) && DueChain(g, all, before, b)
    ensures |a| <= |b| && a == b[..|a|]
  {
    hide FirstChain, Members;
    if |a| <= |b| {
      SameChainUpTo(g, all, before, a, b, |a|);
      assert a[..|a|] == a;
    } else {
      SameChainUpTo(g, all, before, a, b, |b|);
      assert b[..|b|] == b;
      ChainPrefix(g, all, Members(before), a, |b|);
      NotInPrefix(a, |b|, |b|);
      assert false;
    }
  }

  lemma DueChainIsUnique(g: Graph, all: set<nat>, before: seq<nat>, a: seq<nat>, b: seq<nat>)
    requires DueChain(g, all, before, a) && DueChain(g, all, before, b)
    ensures a == b
  {
    hide FirstChain, Members, Satisfied;
    OpenIsPrefix(g, all, before, a, b);
    OpenIsPrefix(g, all, before, b, a);
    assert b[..|b|] == b;
  }

  lemma SameDemand(g: Graph, all: set<nat>, before: seq<nat>, x: nat, y: nat)
    requires Demanded(g, all, before, x) && Demanded(g, all, before, y)
    ensures x == y
  {
    hide FirstChain, Satisfied, Distinct;
    var a :| DueChain(g, all, before, a) && a[|a| - 1] == x;
    var b :| DueChain(g, all, before, b) && b[|b| - 1] == y;
    DueChainIsUnique(g, all, before, a, b);
  }

  lemma {:induction false} SamePrefix(g: Graph, all: set<nat>, a: seq<nat>, b: seq<nat>, k: nat)
    requires OnDemand(g, all, a) && OnDemand(g, all, b) && k <= |a| && k <= |b|
    ensures a[..k] == b[..k]
  {
    hide Demanded;
    if k > 0 {
      SamePrefix(g, all, a, b, k - 1);
      SameDemand(g, all, a[..k - 1], a[k - 1], b[k - 1]);
      assert a[..k] == a[..k - 1] + [a[k - 1]] && b[..k] == b[..k - 1] + [b[k - 1]];
    }
  }

  lemma NotShorter(a: seq<nat>, b: seq<nat>)
    requires Distinct(b) && (forall x :: x in b ==> x in a) && |a| <= |b| && a == b[..|a|]
    ensures a == b
  {
    if |a| < |b| {
      NotInPrefix(b, |a|, |a|);
      assert false;
    }
    assert b[..|b|] == b;
  }

  /* What a definition reaches. */

  // All dependencies of what is placed are placed or in the chain.
  ghost predicate SuccessorsWithin(g: Graph, before: seq<nat>, chain: seq<nat>) {
    forall y: nat, e: nat :: y in before && y < |g| && e in g[y] ==> e in before || e in chain
  }

  lemma DueAt(g: Graph, all: set<nat>, ordered: seq<nat>, p: nat) returns (chain: seq<nat>)
    requires OnDemand(g, all, ordered) && p < |ordered|
    ensures DueChain(g, all, ordered[..p], chain) && chain != [] && chain[|chain| - 1] == ordered[p]
  {
    hide FirstChain, Satisfied, Distinct;
    assert Demanded(g, all, ordered[..p], ordered[p]);
    chain :| DueChain(g, all, ordered[..p], chain) && chain[|chain| - 1] == ordered[p];
  }

  // Once its last link is placed, the rest of a due chain starts the next one.
  lemma RestStaysDue(g: Graph, all: set<nat>, before: seq<nat>, a: seq<nat>, b: seq<nat>, y: nat)
    requires DueChain(g, all, before, a) && DueChain(g, all, before + [a[|a| - 1]], b)
    requires y in a && y != a[|a| - 1]
    ensures y in b
  {
    hide Satisfied, Members;
    var front, x := a[..|a| - 1], a[|a| - 1];
    assert a == front + [x];
    DistinctSplit(front, [x]);
    MembersGrow(before, x);
    ChainStays(g, all, Members(before), Members(before + [x]), front);
    hide FirstChain, Distinct;
    OpenIsPrefix(g, all, before + [x], front, b);
    assert y in front;
  }

  lemma {:induction false} PlacedSuccessors(g: Graph, all: set<nat>, ordered: seq<nat>, p: nat, chain: seq<nat>)
    requires OnDemand(g, all, ordered) && p < |ordered| && DueChain(g, all, ordered[..p], chain)
    ensures SuccessorsWithin(g, ordered[..p], chain)
  {
    hide OnDemand, FirstChain, Members, Distinct;
    if p > 0 {
      var before, x := ordered[..p - 1], ordered[p - 1];
      assert ordered[..p] == before + [x];
      var last := DueAt(g, all, ordered, p - 1);
      PlacedSuccessors(g, all, ordered, p - 1, last);
      forall y | y in last ensures y in ordered[..p] || y in chain {
        if y != x {
          RestStaysDue(g, all, before, last, chain, y);
        }
      }
      hide OpenChain;
    }
  }

  lemma DueChainReaches(g: Graph, all: set<nat>, before: seq<nat>, chain: seq<nat>, y: nat)
    requires WellFormed(g) && (forall x :: x in all ==> x < |g|)
    requires DueChain(g, all, before, chain) && y in chain
    ensures Reach(g, y, chain[|chain| - 1])
  {
    hide Reach, WellFormed, Satisfied;
    ChainStart(g, all, Members(before), chain);
    var k :| 0 <= k < |chain| && chain[k] == y;
    ChainReaches(g, all, Members(before), chain, k);
  }

  // Off a cycle, a path from a definition stays in what is placed before it.
  lemma {:induction false} StaysPlaced(
      g: Graph, before: seq<nat>, chain: seq<nat>, i: nat, n: nat, c: nat, j: nat)
    requires WellFormed(g) && !ReachPlus(g, i, i) && SuccessorsWithin(g, before, chain)
    requires i !in before && forall y :: y in chain ==> Reach(g, y, i)
    requires c in before && Reach(g, i, c) && ReachIn(g, n, c, j)
    ensures j in before
    decreases n
  {
    hide Reach, WellFormed, ReachPlus;
    if n > 0 {
      var e: nat :| e in g[c] && ReachIn(g, n - 1, e, j);
      ReachEdge(g, c, e);
      ReachTrans(g, i, c, e);
      if e in chain {
        ReachTrans(g, c, e, i);
        MutualReachIsCycle(g, i, c);
      }
      StaysPlaced(g, before, chain, i, n - 1, e, j);
    }
  }

  lemma PlusFromEdge(g: Graph, i: nat, c: nat)
    requires i < |g| && c in g[i] && Reach(g, c, i)
    ensures ReachPlus(g, i, i)
  {
    hide Reach;
  }

  lemma OffCycleFirst(g: Graph, all: set<nat>, ordered: seq<nat>, p: nat, j: nat)
    requires WellFormed(g) && (forall x :: x in all ==> x < |g|)
    requires Distinct(ordered) && OnDemand(g, all, ordered)
    requires p < |ordered| && !ReachPlus(g, ordered[p], ordered[p]) && ReachPlus(g, ordered[p], j)
    ensures Precedes(ordered, j, ordered[p])
  {
    var i, before := ordered[p], ordered[..p];
    var chain := DueAt(g, all, ordered, p);
    hide OnDemand, Reach, WellFormed, FirstChain, Members;
    PlacedSuccessors(g, all, ordered, p, chain);
    NotInPrefix(ordered, p, p);
    hide Distinct, Precedes;
    forall y | y in chain ensures Reach(g, y, i) {
      DueChainReaches(g, all, before, chain, y);
    }
    var c: nat :| c in g[i] && Reach(g, c, j);
    if c in chain {
      PlusFromEdge(g, i, c);
    }
    var n := PathLength(g, c, j);
    ReachEdge(g, i, c);
    hide ReachPlus;
    StaysPlaced(g, before, chain, i, n, c, j);
    PrecedesInPrefix(ordered, p, j);
  }

  lemma PathLength(g: Graph, a: nat, b: nat) returns (n: nat)
    requires Reach(g, a, b)
    ensures ReachIn(g, n, a, b)
  {
    n :| ReachIn(g, n, a, b);
  }

  lemma NotBeforeItself(ordered: seq<nat>, i: nat)
    requires Distinct(ordered)
    ensures !Precedes(ordered, i, i)
  {
  }

  // A definition comes after everything it reaches exactly when it is not on a cycle.
  lemma FirstExactlyOffCycle(g: Graph, all: set<nat>, ordered: seq<nat>, i: nat)
    requires WellFormed(g) && (forall x :: x in all ==> x < |g|)
    requires Distinct(ordered) && OnDemand(g, all, ordered) && i in ordered
    ensures (forall j: nat :: ReachPlus(g, i, j) ==> Precedes(ordered, j, i)) <==> !ReachPlus(g, i, i)
  {
    hide ReachPlus, Precedes, OnDemand, WellFormed, Distinct;
    var p :| 0 <= p < |ordered| && ordered[p] == i;
    NotBeforeItself(ordered, i);
    if !ReachPlus(g, i, i) {
      forall j: nat | ReachPlus(g, i, j) ensures Precedes(ordered, j, i) {
        OffCycleFirst(g, all, ordered, p, j);
      }
    }
  }
}
