/** The checking order of top-level definitions: those that need inference first,
    in depth-first post-order over their dependencies, then the declared ones. */
module DefinitionOrder {
  import opened Options
  import opened Graphs
  import opened Definitions
  import opened Sequences
  import opened DefinitionChains
  import opened RecursionCheck

  ghost predicate Increasing(q: seq<nat>) {
    forall i, j :: 0 <= i < j < |q| ==> q[i] < q[j]
  }

  lemma {:induction false} LeastExists(s: set<nat>)
    requires s != {}
    ensures exists m: nat :: m in s && forall x: nat :: x in s ==> m <= x
  {
    var m: nat :| m in s;
    var rest := s - {m};
    var least := m;
    if rest != {} {
      LeastExists(rest);
      var k: nat :| k in rest && forall x: nat :: x in rest ==> k <= x;
      if k < m {
        least := k;
      }
    }
    forall x: nat | x in s ensures least <= x {
      assert x == m || x in rest;
    }
    assert least in s;
  }

  function Least(s: set<nat>): (m: nat)
    requires s != {}
    ensures m in s && forall x: nat :: x in s ==> m <= x
  {
    LeastExists(s);
    var m: nat :| m in s && forall x: nat :: x in s ==> m <= x;
    m
  }

  // The members of a set of positions in increasing order.
  function Sorted(s: set<nat>): seq<nat> {
    if s == {} then [] else [Least(s)] + Sorted(s - {Least(s)})
  }

  lemma {:induction false} SortedElements(s: set<nat>)
    ensures forall x: nat :: x in Sorted(s) <==> x in s
  {
    if s != {} {
      SortedElements(s - {Least(s)});
    }
  }

  lemma IncreasingCons(m: nat, rest: seq<nat>)
    requires Increasing(rest) && forall x :: x in rest ==> m < x
    ensures Increasing([m] + rest)
  {
    forall i, j | 0 <= i < j < |[m] + rest| ensures ([m] + rest)[i] < ([m] + rest)[j] {
      assert rest[j - 1] in rest;
    }
  }

  lemma {:induction false} SortedIsIncreasing(s: set<nat>)
    ensures Increasing(Sorted(s))
  {
    if s != {} {
      var m := Least(s);
      SortedIsIncreasing(s - {m});
      SortedElements(s - {m});
      hide Increasing;
      IncreasingCons(m, Sorted(s - {m}));
    }
  }

  // What scheduling has to know before it visits the last link of `chain`: the
  // earlier links are the definitions being visited.
  ghost predicate Schedulable(
    g: Graph, all: set<nat>, placed: set<nat>, visiting: set<nat>, ordered: seq<nat>, chain: seq<nat>, x: nat)
  {
    && Scheduled(g, all, placed, visiting, ordered)
    && x in all
    && FirstChain(g, all, placed, chain) && chain[|chain| - 1] == x
    && visiting == Members(chain[..|chain| - 1]) && Distinct(chain[..|chain| - 1])
    && (forall y :: y in visiting ==> Reach(g, y, x))
  }

  ghost predicate Scheduled(g: Graph, all: set<nat>, placed: set<nat>, visiting: set<nat>, ordered: seq<nat>) {
    && WellFormed(g) && Closed(g, all) && (forall x :: x in all ==> x < |g|)
    && placed !! visiting && visiting <= all && placed <= all
    && Placed(g, placed, ordered)
    && OnDemand(g, all, ordered)
  }

  lemma VisitDependency(
      g: Graph, all: set<nat>, placed: set<nat>, visiting: set<nat>, ordered: seq<nat>, chain: seq<nat>, x: nat, d: nat)
    requires Schedulable(g, all, placed, visiting - {x}, ordered, chain, x)
    requires x in visiting && Scheduled(g, all, placed, visiting, ordered) && d in g[x]
    requires forall e: nat :: e in g[x] && e < d ==> e in placed || e in visiting
    ensures Schedulable(g, all, placed, visiting, ordered, chain + [d], d)
  {
    hide Reach, Scheduled, FirstChain, Members;
    ScheduledGraph(g, all, placed, visiting, ordered);
    ReachEdge(g, x, d);
    forall y | y in visiting ensures Reach(g, y, d) {
      if y != x {
        ReachTrans(g, y, x, d);
      }
    }
    ChainNotEmpty(g, all, placed, chain);
    var front := chain[..|chain| - 1];
    assert chain == front + [x];
    MembersGrow(front, x);
    assert visiting == Members(chain);
    MembersMean(chain);
    MembersMean(front);
    OneMoreLink(front, x);
    ChainGrows(g, all, placed, chain, d);
    assert (chain + [d])[..|chain|] == chain;
  }

  lemma ScheduledGraph(g: Graph, all: set<nat>, placed: set<nat>, visiting: set<nat>, ordered: seq<nat>)
    requires Scheduled(g, all, placed, visiting, ordered)
    ensures WellFormed(g) && Closed(g, all) && forall x :: x in all ==> x < |g|
  {
  }

  lemma PlaceVisited(
      g: Graph, all: set<nat>, placed: set<nat>, visiting: set<nat>, ordered: seq<nat>, chain: seq<nat>, x: nat)
    requires Schedulable(g, all, placed, visiting - {x}, ordered, chain, x)
    requires x in visiting && Scheduled(g, all, placed, visiting, ordered)
    requires forall d :: d in g[x] ==> d in placed || d in visiting
    ensures Scheduled(g, all, placed + {x}, visiting - {x}, ordered + [x])
  {
    hide Reach, WellFormed, Closed, OnDemand, DirectEdgesFirst, Distinct, FirstChain;
    ReachRefl(g, x);
    assert DependenciesFirst(g, ordered, x);
    hide DependenciesFirst;
    PlaceOne(g, placed, ordered, x);
    ChainNotEmpty(g, all, placed, chain);
    var front := chain[..|chain| - 1];
    assert chain == front + [x];
    MembersMean(front);
    OneMoreLink(front, x);
    assert Satisfied(g, ordered, chain);
    DemandOne(g, all, placed, ordered, chain);
  }

  lemma SchedulableIsScheduled(
      g: Graph, all: set<nat>, placed: set<nat>, visiting: set<nat>, ordered: seq<nat>, chain: seq<nat>, x: nat)
    requires Schedulable(g, all, placed, visiting, ordered, chain, x)
    ensures Scheduled(g, all, placed, visiting, ordered)
  {
  }

  // Starting to visit `x` changes nothing else.
  lemma VisitFacts(
      g: Graph, all: set<nat>, placed: set<nat>, visiting: set<nat>, ordered: seq<nat>, chain: seq<nat>, x: nat)
    requires Schedulable(g, all, placed, visiting, ordered, chain, x) && x !in placed
    ensures x < |g| && x in all && Scheduled(g, all, placed, visiting + {x}, ordered)
  {
    hide Reach, Closed, WellFormed, Placed, OnDemand;
  }

  lemma SmallerTargets(edges: set<nat>, targets: seq<nat>, k: nat, placed: set<nat>, visiting: set<nat>)
    requires Increasing(targets) && (forall x: nat :: x in targets <==> x in edges) && k < |targets|
    requires forall j :: 0 <= j < k ==> targets[j] in placed || targets[j] in visiting
    ensures targets[k] in edges
    ensures forall e: nat :: e in edges && e < targets[k] ==> e in placed || e in visiting
  {
    assert targets[k] in targets;
    forall e: nat | e in edges && e < targets[k] ensures e in placed || e in visiting {
      var j :| 0 <= j < |targets| && targets[j] == e;
    }
  }

  lemma StillSchedulable(
      g: Graph, all: set<nat>, placed: set<nat>, more: set<nat>, entered: set<nat>, ordered: seq<nat>,
      ordered': seq<nat>, chain: seq<nat>, x: nat)
    requires Schedulable(g, all, placed, entered, ordered, chain, x)
    requires Scheduled(g, all, more, entered + {x}, ordered') && placed <= more
    ensures Schedulable(g, all, more, entered, ordered', chain, x)
  {
    hide Reach, WellFormed, Closed, Placed, OnDemand, FirstChain;
    ChainStays(g, all, placed, more, chain);
  }

  /** One depth-first scheduling of the incomplete definitions `all`. */
  class Schedule {
    const dependencies: Graph
    ghost const all: set<nat>
    var complete: set<nat>
    var visiting: set<nat>
    var ordered: seq<nat>

    constructor (dependencies: Graph, ghost all: set<nat>)
      ensures this.dependencies == dependencies && this.all == all
      ensures complete == {} && visiting == {} && ordered == []
    {
      this.dependencies, this.all := dependencies, all;
      complete, visiting, ordered := {}, {}, [];
    }

    ghost predicate Valid()
      reads this
    {
      Scheduled(dependencies, all, complete, visiting, ordered)
    }

    // Place the dependencies of `index`, then `index` itself.
    method VisitIncomplete(index: nat, ghost chain: seq<nat>)
      requires Schedulable(dependencies, all, complete, visiting, ordered, chain, index)
      modifies this
      ensures Valid()
      ensures visiting == old(visiting) && old(complete) <= complete
      ensures index in complete || index in visiting
      decreases all - complete - visiting
    {
      hide Scheduled, Schedulable, Sorted, Increasing;
      SchedulableIsScheduled(dependencies, all, complete, visiting, ordered, chain, index);
      if index in complete || index in visiting {
        return;
      }
      ghost var entered := visiting;
      VisitFacts(dependencies, all, complete, visiting, ordered, chain, index);
      visiting := visiting + {index};
      assert visiting - {index} == entered;
      var targets := Sorted(dependencies[index]);
      SortedElements(dependencies[index]);
      SortedIsIncreasing(dependencies[index]);
      for k := 0 to |targets|
        invariant visiting == entered + {index} && old(complete) <= complete
        invariant Valid()
        invariant Schedulable(dependencies, all, complete, entered, ordered, chain, index)
        invariant forall j :: 0 <= j < k ==> targets[j] in complete || targets[j] in visiting
      {
        SmallerTargets(dependencies[index], targets, k, complete, visiting);
        VisitDependency(dependencies, all, complete, visiting, ordered, chain, index, targets[k]);
        ghost var placed, before := complete, ordered;
        VisitIncomplete(targets[k], chain + [targets[k]]);
        StillSchedulable(dependencies, all, placed, complete, entered, before, ordered, chain, index);
      }
      PlaceVisited(dependencies, all, complete, visiting, ordered, chain, index);
      visiting := visiting - {index};
      complete := complete + {index};
      ordered := ordered + [index];
    }
  }

  lemma EmptySchedule(g: Graph, all: set<nat>)
    requires WellFormed(g) && forall x :: x in all ==> x < |g|
    ensures Scheduled(Restrict(g, all), all, {}, {}, [])
  {
  }

  lemma CompleteSchedule(g: Graph, all: set<nat>, placed: set<nat>, ordered: seq<nat>)
    requires Scheduled(g, all, placed, {}, ordered)
    requires forall x :: x in all ==> x in placed
    ensures Distinct(ordered) && (forall x: nat :: x in ordered <==> x in all)
    ensures DirectEdgesFirst(g, ordered) && OnDemand(g, all, ordered)
  {
    hide DirectEdgesFirst, OnDemand, Distinct, WellFormed, Closed;
  }

  // Schedule every incomplete definition, in source order where dependencies allow.
  method OrderIncomplete(dependencies: Graph, all: set<nat>) returns (ordered: seq<nat>)
    requires WellFormed(dependencies) && forall x :: x in all ==> x < |dependencies|
    ensures Distinct(ordered) && forall x: nat :: x in ordered <==> x in all
    ensures DirectEdgesFirst(Restrict(dependencies, all), ordered)
    ensures OnDemand(Restrict(dependencies, all), all, ordered)
  {
    hide Scheduled, Schedulable, Restrict, Increasing, WellFormed, Sorted, Distinct, DirectEdgesFirst, OnDemand;
    var among := Restrict(dependencies, all);
    var schedule := new Schedule(among, all);
    EmptySchedule(dependencies, all);
    var roots := Sorted(all);
    SortedElements(all);
    SortedIsIncreasing(all);
    for k := 0 to |roots|
      invariant schedule.dependencies == among && schedule.all == all
      invariant schedule.Valid() && schedule.visiting == {}
      invariant forall j :: 0 <= j < k ==> roots[j] in schedule.complete
    {
      RootIsSchedulable(among, all, schedule.complete, schedule.ordered, roots, k);
      ghost var chain := [roots[k]];
      schedule.VisitIncomplete(roots[k], chain);
    }
    ordered := schedule.ordered;
    CompleteSchedule(among, all, schedule.complete, ordered);
  }

  lemma RootIsSchedulable(g: Graph, all: set<nat>, placed: set<nat>, ordered: seq<nat>, roots: seq<nat>, k: nat)
    requires Scheduled(g, all, placed, {}, ordered)
    requires Increasing(roots) && (forall x: nat :: x in roots <==> x in all)
    requires k < |roots| && forall j :: 0 <= j < k ==> roots[j] in placed
    ensures Schedulable(g, all, placed, {}, ordered, [roots[k]], roots[k])
  {
    hide Scheduled, Reach;
    ScheduledGraph(g, all, placed, {}, ordered);
    assert roots[k] in all;
    assert [roots[k]][..0] == [];
    forall i | i in all && i < roots[k] ensures i in placed {
      var j :| 0 <= j < |roots| && roots[j] == i;
      assert j < k;
    }
  }

  /** What the order handed to inference promises: a permutation of the definitions
      whose first `|IncompleteSet(defs)|` entries are the ones needing inference. */
  ghost predicate InferenceOrder(defs: seq<Definition>, g: Graph, order: seq<nat>) {
    exists ordered, declared: seq<nat> ::
      && order == ordered + declared
      && IncompletePart(defs, g, ordered)
      && DeclaredPart(defs, declared)
  }

  ghost predicate IncompletePart(defs: seq<Definition>, g: Graph, ordered: seq<nat>) {
    var all := IncompleteSet(defs);
    && Distinct(ordered)
    && (forall x: nat :: x in ordered <==> x in all)
    && DirectEdgesFirst(Restrict(g, all), ordered)
    && OnDemand(Restrict(g, all), all, ordered)
  }

  // The definitions with complete contracts, in source order.
  ghost predicate DeclaredPart(defs: seq<Definition>, declared: seq<nat>) {
    && Increasing(declared)
    && forall x: nat :: x in declared <==> x < |defs| && HasCompleteContract(defs[x])
  }

  method OrderTopLevelDefinitions(defs: seq<Definition>)
    returns (order: seq<nat>, incompleteRecursive: seq<nat>, ghost dependencies: Graph)
    ensures IsDependencyGraph(defs, dependencies)
    ensures Distinct(incompleteRecursive)
    ensures forall i: nat :: i in incompleteRecursive <==> Incomplete(defs, i) && ReachPlus(dependencies, i, i)
    ensures InferenceOrder(defs, dependencies, order)
    ensures Distinct(order) && forall x: nat :: x in order <==> x < |defs|
    ensures forall i: nat :: i < |defs| ==>
      (NeedsComeFirst(defs, dependencies, order, i) <==> !NeedsInferred(defs, dependencies, i, i))
    ensures forall i: nat :: i < |defs| && i !in incompleteRecursive ==> NeedsComeFirst(defs, dependencies, order, i)
  {
    var graph := Dependencies(defs);
    dependencies := graph;
    incompleteRecursive := IncompleteCycleMembers(defs, graph);
    var ordered := OrderIncomplete(graph, IncompleteSet(defs));
    var declared := DeclaredDefinitions(defs);
    order := ordered + declared;
    hide DirectEdgesFirst, OnDemand, ReachPlus, WellFormed, Distinct, IsDependencyGraph, DeclaredPart;
    assert IncompletePart(defs, graph, ordered);
    OrderIsPermutation(defs, graph, order);
    hide InferenceOrder, NeedsInferred, NeedsComeFirst, Incomplete;
    DependencySize(defs, graph);
    forall i: nat | i < |defs|
      ensures NeedsComeFirst(defs, dependencies, order, i) <==> !NeedsInferred(defs, dependencies, i, i)
      ensures i !in incompleteRecursive ==> NeedsComeFirst(defs, dependencies, order, i)
    {
      OrderIsRightOffCycles(defs, graph, order, i);
    }
  }

  lemma DependencySize(defs: seq<Definition>, g: Graph)
    requires IsDependencyGraph(defs, g)
    ensures |g| == |defs|
  {
  }

  method DeclaredDefinitions(defs: seq<Definition>) returns (declared: seq<nat>)
    ensures DeclaredPart(defs, declared)
  {
    declared := [];
    for i := 0 to |defs|
      invariant Increasing(declared)
      invariant forall x: nat :: x in declared <==> x < i && HasCompleteContract(defs[x])
    {
      if i !in IncompleteSet(defs) {
        assert forall k :: 0 <= k < |declared| ==> declared[k] in declared;
        declared := declared + [i];
      }
    }
  }

  lemma IncreasingIsDistinct(q: seq<nat>)
    requires Increasing(q)
    ensures Distinct(q)
  {
  }

  // The order names every definition exactly once.
  lemma OrderIsPermutation(defs: seq<Definition>, g: Graph, order: seq<nat>)
    requires InferenceOrder(defs, g, order)
    ensures Distinct(order) && forall x: nat :: x in order <==> x < |defs|
  {
    hide DirectEdgesFirst, OnDemand, Distinct, HasCompleteContract, Increasing;
    var ordered, declared: seq<nat> :|
      order == ordered + declared && IncompletePart(defs, g, ordered) && DeclaredPart(defs, declared);
    IncreasingIsDistinct(declared);
    forall x | x in ordered ensures x !in declared {
      assert Incomplete(defs, x);
    }
    DistinctAppend(ordered, declared);
    forall x: nat | x < |defs| ensures x in order {
      assert x in IncompleteSet(defs) || HasCompleteContract(defs[x]);
    }
  }

  lemma PrecedesExtends(order: seq<nat>, more: seq<nat>, a: nat, b: nat)
    requires Precedes(order, a, b)
    ensures Precedes(order + more, a, b)
  {
    var p, q :| 0 <= p < q < |order| && order[p] == a && order[q] == b;
    assert (order + more)[p] == a && (order + more)[q] == b;
  }

  // The direct dependency `j` of the incomplete definition `i` comes first, when
  // `j` does not depend on `i` in turn through incomplete definitions.
  lemma DirectDependencyFirst(defs: seq<Definition>, g: Graph, ordered: seq<nat>, i: nat, j: nat)
    requires WellFormed(g) && |g| == |defs| && IncompletePart(defs, g, ordered)
    requires Incomplete(defs, i) && Incomplete(defs, j) && j in g[i]
    requires !Reach(Restrict(g, IncompleteSet(defs)), j, i)
    ensures Precedes(ordered, j, i)
  {
    hide Reach, OnDemand, Distinct, Incomplete, WellFormed;
    var all := IncompleteSet(defs);
    assert i < |g| by { IncompleteBound(defs, i); }
    assert i in all && j in all;
    var q :| 0 <= q < |ordered| && ordered[q] == i;
    assert DependenciesFirst(Restrict(g, all), ordered[..q], ordered[q]);
    PrecedesInPrefix(ordered, q, j);
  }

  lemma IncompleteBound(defs: seq<Definition>, i: nat)
    requires Incomplete(defs, i)
    ensures i < |defs|
  {
  }

  // A definition placed before a smaller one was needed by some definition that
  // is no larger than that one: source order changes only on demand.
  lemma SourceOrderUnlessNeeded(defs: seq<Definition>, g: Graph, ordered: seq<nat>, i: nat, j: nat)
    requires WellFormed(g) && |g| == |defs| && IncompletePart(defs, g, ordered)
    requires i < j && Precedes(ordered, j, i)
    ensures exists r: nat :: r <= i && Incomplete(defs, r) && Reach(Restrict(g, IncompleteSet(defs)), r, j)
  {
    var all := IncompleteSet(defs);
    assert forall x :: x in all ==> x < |g|;
    hide Reach, DirectEdgesFirst, Restrict, Distinct, HasCompleteContract, Demanded, Incomplete, WellFormed;
    var p, q :| 0 <= p < q < |ordered| && ordered[p] == j && ordered[q] == i;
    assert ordered[q] in ordered && i in all;
    NotInPrefix(ordered, p, q);
    assert Demanded(Restrict(g, all), all, ordered[..p], j);
    hide OnDemand;
    RestrictWellFormed(g, all);
    var root := DemandBound(Restrict(g, all), all, ordered[..p], i, j);
  }

  lemma RestrictWellFormed(g: Graph, all: set<nat>)
    requires WellFormed(g)
    ensures WellFormed(Restrict(g, all)) && |Restrict(g, all)| == |g|
  {
  }

  // The order of the incomplete definitions is the only one that keeps the promise.
  lemma OrderIsDetermined(defs: seq<Definition>, g: Graph, a: seq<nat>, b: seq<nat>)
    requires IncompletePart(defs, g, a) && IncompletePart(defs, g, b)
    ensures a == b
  {
    hide OnDemand, DirectEdgesFirst, Distinct, Restrict;
    var all := IncompleteSet(defs);
    if |a| <= |b| {
      SamePrefix(Restrict(g, all), all, a, b, |a|);
      assert a[..|a|] == a;
      NotShorter(a, b);
    } else {
      SamePrefix(Restrict(g, all), all, a, b, |b|);
      assert b[..|b|] == b;
      NotShorter(b, a);
    }
  }

  lemma SomeMember(q: seq<nat>)
    requires q != []
    ensures exists x :: x in q
  {
    assert q[0] in q;
  }

  lemma {:induction false} IncreasingIsUnique(a: seq<nat>, b: seq<nat>)
    requires Increasing(a) && Increasing(b) && forall x: nat :: x in a <==> x in b
    ensures a == b
  {
    if a == [] {
      if b != [] {
        SomeMember(b);
      }
    } else {
      assert a[0] in a && a[0] in b && b[0] in b && b[0] in a;
      assert a == [a[0]] + a[1..] && b == [b[0]] + b[1..];
      IncreasingIsDistinct(a);
      IncreasingIsDistinct(b);
      assert a[0] !in a[1..] && b[0] !in b[1..];
      forall x: nat ensures x in a[1..] <==> x in b[1..] {
        assert x in a[1..] <==> x in a && x != a[0];
        assert x in b[1..] <==> x in b && x != b[0];
      }
      IncreasingIsUnique(a[1..], b[1..]);
    }
  }

  // The whole order is determined by what it promises.
  lemma InferenceOrderIsDetermined(defs: seq<Definition>, g: Graph, a: seq<nat>, b: seq<nat>)
    requires InferenceOrder(defs, g, a) && InferenceOrder(defs, g, b)
    ensures a == b
  {
    hide IncompletePart, Increasing, HasCompleteContract;
    var ordered, declared: seq<nat> :|
      a == ordered + declared && IncompletePart(defs, g, ordered) && DeclaredPart(defs, declared);
    var ordered', declared': seq<nat> :|
      b == ordered' + declared' && IncompletePart(defs, g, ordered') && DeclaredPart(defs, declared');
    OrderIsDetermined(defs, g, ordered, ordered');
    IncreasingIsUnique(declared, declared');
  }

  // Everything an incomplete definition reaches through incomplete definitions comes
  // before it exactly when it does not reach itself.
  lemma DependenciesComeFirst(defs: seq<Definition>, g: Graph, ordered: seq<nat>, i: nat)
    requires WellFormed(g) && |g| == |defs| && IncompletePart(defs, g, ordered) && Incomplete(defs, i)
    ensures
      var sub := Restrict(g, IncompleteSet(defs));
      (forall j: nat :: ReachPlus(sub, i, j) ==> Precedes(ordered, j, i)) <==> !ReachPlus(sub, i, i)
  {
    hide ReachPlus, Precedes, OnDemand, DirectEdgesFirst, Distinct;
    var all := IncompleteSet(defs);
    assert forall x :: x in all ==> x < |g|;
    RestrictWellFormed(g, all);
    hide WellFormed, Restrict, Incomplete;
    FirstExactlyOffCycle(Restrict(g, all), all, ordered, i);
  }

  /** Definition `i` depends on the incomplete definition `j`, directly or through
      incomplete definitions. */
  ghost predicate NeedsInferred(defs: seq<Definition>, g: Graph, i: nat, j: nat) {
    && i < |g|
    && Incomplete(defs, j)
    && exists c: nat :: c in g[i] && Incomplete(defs, c) && Reach(Restrict(g, IncompleteSet(defs)), c, j)
  }

  /** Whatever has to be inferred for `i` is inferred before `i` is checked. */
  ghost predicate NeedsComeFirst(defs: seq<Definition>, g: Graph, order: seq<nat>, i: nat) {
    forall j: nat :: NeedsInferred(defs, g, i, j) ==> Precedes(order, j, i)
  }

  lemma DeclaredOtherwise(defs: seq<Definition>, declared: seq<nat>, i: nat)
    requires DeclaredPart(defs, declared) && i < |defs| && !Incomplete(defs, i)
    ensures i in declared
  {
  }

  // Between incomplete definitions, needing is reaching in the graph between them.
  lemma NeedsAreReached(defs: seq<Definition>, g: Graph, i: nat, j: nat)
    requires WellFormed(g) && |g| == |defs| && Incomplete(defs, i)
    ensures NeedsInferred(defs, g, i, j) <==> ReachPlus(Restrict(g, IncompleteSet(defs)), i, j)
  {
    hide Reach, WellFormed, HasCompleteContract;
    var all := IncompleteSet(defs);
    var sub := Restrict(g, all);
    if ReachPlus(sub, i, j) {
      var c: nat :| c in sub[i] && Reach(sub, c, j);
      ClosedReach(sub, all, c, j);
    }
    if NeedsInferred(defs, g, i, j) {
      var c: nat :| c in g[i] && Incomplete(defs, c) && Reach(sub, c, j);
      assert c in sub[i];
    }
  }

  lemma PrecedesAcross(ordered: seq<nat>, declared: seq<nat>, j: nat, i: nat)
    requires j in ordered && i in declared
    ensures Precedes(ordered + declared, j, i)
  {
    var p :| 0 <= p < |ordered| && ordered[p] == j;
    var q :| 0 <= q < |declared| && declared[q] == i;
    assert (ordered + declared)[p] == j && (ordered + declared)[|ordered| + q] == i;
  }

  // What an order says about two of its first entries.
  lemma PrecedesWithin(ordered: seq<nat>, declared: seq<nat>, j: nat, i: nat)
    requires Distinct(ordered + declared) && j in ordered && i in ordered
    ensures Precedes(ordered + declared, j, i) <==> Precedes(ordered, j, i)
  {
    if Precedes(ordered, j, i) {
      PrecedesExtends(ordered, declared, j, i);
    }
    if Precedes(ordered + declared, j, i) {
      var order := ordered + declared;
      var p, q :| 0 <= p < q < |order| && order[p] == j && order[q] == i;
      var k :| 0 <= k < |ordered| && ordered[k] == i;
      assert order[k] == i;
      assert q == k;
      assert ordered[p] == j && ordered[q] == i;
    }
  }

  // The order is right for a definition exactly when the definition does not need
  // itself: whatever it needs is inferred first, whatever recursion there is elsewhere.
  lemma InferredBeforeUsed(defs: seq<Definition>, g: Graph, order: seq<nat>, i: nat)
    requires WellFormed(g) && |g| == |defs| && InferenceOrder(defs, g, order) && i < |defs|
    ensures NeedsComeFirst(defs, g, order, i) <==> !NeedsInferred(defs, g, i, i)
  {
    OrderIsPermutation(defs, g, order);
    hide IncompletePart, DeclaredPart, Precedes, WellFormed, Incomplete, Distinct, NeedsInferred;
    var ordered, declared: seq<nat> :|
      order == ordered + declared && IncompletePart(defs, g, ordered) && DeclaredPart(defs, declared);
    forall j: nat | Incomplete(defs, j) ensures j in ordered {
      IncompleteIsOrdered(defs, g, ordered, j);
    }
    forall j: nat | NeedsInferred(defs, g, i, j) ensures Incomplete(defs, j) {
      NeededIsIncomplete(defs, g, i, j);
    }
    if Incomplete(defs, i) {
      DependenciesComeFirst(defs, g, ordered, i);
      forall j: nat
        ensures NeedsInferred(defs, g, i, j) <==> ReachPlus(Restrict(g, IncompleteSet(defs)), i, j)
      {
        NeedsAreReached(defs, g, i, j);
      }
      forall j: nat | Incomplete(defs, j) ensures Precedes(order, j, i) <==> Precedes(ordered, j, i) {
        PrecedesWithin(ordered, declared, j, i);
      }
    } else {
      DeclaredOtherwise(defs, declared, i);
      forall j: nat | NeedsInferred(defs, g, i, j) ensures Precedes(order, j, i) {
        PrecedesAcross(ordered, declared, j, i);
      }
    }
  }

  lemma IncompleteIsOrdered(defs: seq<Definition>, g: Graph, ordered: seq<nat>, j: nat)
    requires IncompletePart(defs, g, ordered) && Incomplete(defs, j)
    ensures j in ordered
  {
  }

  lemma NeededIsIncomplete(defs: seq<Definition>, g: Graph, i: nat, j: nat)
    requires NeedsInferred(defs, g, i, j)
    ensures Incomplete(defs, j)
  {
  }

  // A definition that needs itself is an incomplete one on a cycle.
  lemma SelfNeedIsCycle(defs: seq<Definition>, g: Graph, i: nat)
    requires WellFormed(g) && |g| == |defs| && NeedsInferred(defs, g, i, i)
    ensures Incomplete(defs, i) && ReachPlus(g, i, i)
  {
    hide Reach, Incomplete, WellFormed;
    var sub := Restrict(g, IncompleteSet(defs));
    var c: nat :| c in g[i] && Incomplete(defs, c) && Reach(sub, c, i);
    RestrictReach(g, IncompleteSet(defs), c, i);
  }

  lemma OrderIsRightOffCycles(defs: seq<Definition>, g: Graph, order: seq<nat>, i: nat)
    requires WellFormed(g) && |g| == |defs| && InferenceOrder(defs, g, order) && i < |defs|
    ensures NeedsComeFirst(defs, g, order, i) <==> !NeedsInferred(defs, g, i, i)
    ensures !(Incomplete(defs, i) && ReachPlus(g, i, i)) ==> NeedsComeFirst(defs, g, order, i)
  {
    hide InferenceOrder, WellFormed, NeedsComeFirst, NeedsInferred, Incomplete, ReachPlus;
    InferredBeforeUsed(defs, g, order, i);
    if NeedsInferred(defs, g, i, i) {
      SelfNeedIsCycle(defs, g, i);
    }
  }

  /* Cycles. */

  // Three definitions without contracts: the first calls the other two and is called
  // by the second.
  function Triangle(): seq<Definition> {
    var bare := (body: Syntax) => Callable([], None, None, body);
    [Definition("first", bare(Items([Element("second", []), Element("third", [])]))),
     Definition("second", bare(Element("first", []))),
     Definition("third", bare(Scalar))]
  }

  lemma TriangleCalls(name: string)
    ensures
      var d := Triangle();
      && (CalledIn(d[0].callable, name) <==> name == "second" || name == "third")
      && (CalledIn(d[1].callable, name) <==> name == "first")
      && !CalledIn(d[2].callable, name)
  {
    var d := Triangle();
    assert Calls(Element("second", []), name) <==> name == "second";
    assert Calls(Element("third", []), name) <==> name == "third";
    var items := [Element("second", []), Element("third", [])];
    assert Calls(Items(items), name) <==> Calls(items[0], name) || Calls(items[1], name);
  }

  lemma TriangleNames()
    ensures Triangle()[0].name == "first" && Triangle()[1].name == "second" && Triangle()[2].name == "third"
    ensures "first" != "second" && "first" != "third" && "second" != "third"
  {
    assert "first"[0] == 'f' && "second"[0] == 's' && "third"[0] == 't';
  }

  lemma TriangleEdge(i: nat, j: nat)
    requires i < 3 && j < 3
    ensures DependsOn(Triangle(), i, j) <==> (i == 0 && j > 0) || (i == 1 && j == 0)
  {
    hide CalledIn, Triangle;
    TriangleNames();
    assert |Triangle()| == 3 by { TriangleSize(); }
    TriangleCalls(Triangle()[j].name);
  }

  lemma TriangleSize()
    ensures |Triangle()| == 3 && IncompleteSet(Triangle()) == {0, 1, 2}
  {
  }

  lemma TriangleGraph(g: Graph)
    requires IsDependencyGraph(Triangle(), g)
    ensures g == [{1, 2}, {0}, {}]
  {
    hide Triangle, DependsOn;
    TriangleSize();
    forall i: nat, j: nat | i < 3
      ensures j in g[i] <==> (i == 0 && (j == 1 || j == 2)) || (i == 1 && j == 0)
    {
      if j < 3 {
        TriangleEdge(i, j);
      } else {
        OutsideTriangle(i, j);
      }
    }
    assert g[0] == {1, 2} && g[1] == {0} && g[2] == {};
  }

  lemma OutsideTriangle(i: nat, j: nat)
    requires j >= 3
    ensures !DependsOn(Triangle(), i, j)
  {
    hide CalledIn;
  }

  // With recursion the order follows direct dependencies only: in the triangle the
  // second definition is placed before the third, which it needs through the first
  // and which does not need it.
  lemma CyclesBreakIndirectOrder(g: Graph, order: seq<nat>)
    requires IsDependencyGraph(Triangle(), g) && WellFormed(g) && InferenceOrder(Triangle(), g, order)
    ensures order == [1, 2, 0]
    ensures NeedsInferred(Triangle(), g, 1, 2) && !NeedsInferred(Triangle(), g, 2, 1) && !Precedes(order, 2, 1)
  {
    TriangleGraph(g);
    TriangleSize();
    var d := Triangle();
    hide IsDependencyGraph, Triangle, WellFormed, HasCompleteContract;
    TriangleMeetsPromise(d, g);
    InferenceOrderIsDetermined(d, g, order, [1, 2, 0]);
    TriangleNeeds(d, g);
  }

  lemma TriangleIsWhole(g: Graph)
    requires g == [{1, 2}, {0}, {}]
    ensures Restrict(g, {0, 1, 2}) == g
  {
    var r := Restrict(g, {0, 1, 2});
    assert g[0] == {1, 2} && g[1] == {0} && g[2] == {};
    assert r[0] == g[0] && r[1] == g[1] && r[2] == g[2];
  }

  lemma TriangleMeetsPromise(d: seq<Definition>, g: Graph)
    requires |d| == 3 && IncompleteSet(d) == {0, 1, 2} && g == [{1, 2}, {0}, {}]
    ensures InferenceOrder(d, g, [1, 2, 0])
  {
    hide OnDemand, DirectEdgesFirst, Restrict, HasCompleteContract;
    TriangleOrder(g);
    TriangleIsWhole(g);
    assert IncompletePart(d, g, [1, 2, 0]);
    hide IncompletePart;
    assert DeclaredPart(d, []) by {
      forall x: nat | x < |d| ensures !HasCompleteContract(d[x]) {
        assert x in IncompleteSet(d);
      }
    }
    assert [1, 2, 0] + [] == [1, 2, 0];
  }

  lemma TriangleNeeds(d: seq<Definition>, g: Graph)
    requires |d| == 3 && IncompleteSet(d) == {0, 1, 2} && g == [{1, 2}, {0}, {}]
    ensures NeedsInferred(d, g, 1, 2) && !NeedsInferred(d, g, 2, 1)
  {
    SmallReaches(g);
    TriangleIsWhole(g);
    hide Reach, Restrict, HasCompleteContract;
    assert 0 in IncompleteSet(d) && 2 in IncompleteSet(d);
    assert 0 in g[1];
  }

  lemma TriangleOrder(g: Graph)
    requires g == [{1, 2}, {0}, {}]
    ensures OnDemand(g, {0, 1, 2}, [1, 2, 0]) && DirectEdgesFirst(g, [1, 2, 0])
  {
    var all: set<nat> := {0, 1, 2};
    var order: seq<nat> := [1, 2, 0];
    SmallReaches(g);
    hide Reach;
    assert order[..0] == [] && order[..1] == [1] && order[..2] == [1, 2];
    assert DirectEdgesFirst(g, order);
    hide DirectEdgesFirst, FirstChain;
    SmallChains(g, all);
    assert DueChain(g, all, order[..0], [0, 1]);
    assert DueChain(g, all, order[..1], [0, 2]);
    assert DueChain(g, all, order[..2], [0]);
    hide DueChain;
    assert Demanded(g, all, order[..0], 1);
    assert Demanded(g, all, order[..1], 2);
    assert Demanded(g, all, order[..2], 0);
  }

  lemma SmallReaches(g: Graph)
    requires g == [{1, 2}, {0}, {}]
    ensures Reach(g, 0, 1) && Reach(g, 1, 0) && Reach(g, 0, 2) && Reach(g, 1, 2) && !Reach(g, 2, 1)
  {
    hide Reach;
    ReachEdge(g, 0, 1);
    ReachEdge(g, 1, 0);
    ReachEdge(g, 0, 2);
    ReachTrans(g, 1, 0, 2);
    StaysInside(g, {2}, 2, 1);
  }

  lemma StaysInside(g: Graph, s: set<nat>, a: nat, b: nat)
    requires Closed(g, s) && a in s && b !in s
    ensures !Reach(g, a, b)
  {
    hide Reach, Closed;
    if Reach(g, a, b) {
      ClosedReach(g, s, a, b);
    }
  }

  lemma SmallChains(g: Graph, all: set<nat>)
    requires g == [{1, 2}, {0}, {}] && all == {0, 1, 2}
    ensures FirstChain(g, all, Members([]), [0, 1]) && FirstChain(g, all, Members([1]), [0, 2])
    ensures FirstChain(g, all, Members([1, 2]), [0])
  {
    var one: seq<nat> := [0];
    assert forall placed :: FirstChain(g, all, placed, one);
    ChainGrows(g, all, Members([]), one, 1);
    ChainGrows(g, all, Members([1]), one, 2);
    assert one + [1] == [0, 1] && one + [2] == [0, 2];
  }
}
