/** The recursion check: Tarjan's component algorithm over the definition graph,
    reporting the incomplete definitions that lie on a cycle. */
module RecursionCheck {
  import opened Graphs
  import opened Definitions
  import opened Sequences

  /** The bookkeeping maps and stack of one traversal, as a value. `num` holds the
      discovery numbers, `low` the low links, `on` the positions on the stack. */
  datatype Scan = Scan(next: nat, num: map<nat, nat>, low: map<nat, nat>, stack: seq<nat>, on: set<nat>)

  ghost predicate Shape(g: Graph, s: Scan) {
    && s.low.Keys == s.num.Keys
    && (forall x :: x in s.num ==> x < |g| && s.num[x] < s.next)
    && (forall x :: x in s.on <==> x in s.stack)
    && (forall x :: x in s.on ==> x in s.num)
    && (forall i, j :: 0 <= i < j < |s.stack| ==>
          && s.stack[i] in s.num && s.stack[j] in s.num
          && s.num[s.stack[i]] < s.num[s.stack[j]])
  }

  // A numbered position that has left the stack: its component is finished.
  ghost predicate Done(s: Scan, x: nat) {
    x in s.num && x !in s.on
  }

  // Finished components have no edge back into the rest of the graph, and every
  // position that is no longer `active` has had all its edges examined.
  ghost predicate Explored(g: Graph, num: map<nat, nat>, on: set<nat>, active: set<nat>) {
    forall x: nat, y: nat {:trigger y in g[x]} :: x in num && x < |g| && y in g[x] ==>
      && (x !in active ==> y in num)
      && (x !in on ==> y !in on)
  }

  // Active positions reach everything above them on the stack.
  ghost predicate ReachUp(g: Graph, num: map<nat, nat>, on: set<nat>, active: set<nat>) {
    forall x: nat, y: nat {:trigger Reach(g, x, y)} ::
      x in active && y in on && x in num && y in num && num[x] <= num[y] ==> Reach(g, x, y)
  }

  // Everything on the stack reaches an active position below it.
  ghost predicate ReachDown(g: Graph, num: map<nat, nat>, on: set<nat>, active: set<nat>) {
    forall y {:trigger ReachesActive(g, num, active, y)} :: y in on && y in num ==> ReachesActive(g, num, active, y)
  }

  ghost predicate ReachesActive(g: Graph, num: map<nat, nat>, active: set<nat>, y: nat)
    requires y in num
  {
    exists x: nat :: x in active && x in num && num[x] <= num[y] && Reach(g, y, x)
  }

  ghost predicate Inv(g: Graph, s: Scan, active: set<nat>) {
    && Shape(g, s)
    && active <= s.on
    && Explored(g, s.num, s.on, active)
    && ReachUp(g, s.num, s.on, active)
    && ReachDown(g, s.num, s.on, active)
  }

  // The report so far: exactly the incomplete cyclic members of finished components.
  ghost predicate Reported(g: Graph, defs: seq<Definition>, s: Scan, found: seq<nat>) {
    && Distinct(found)
    && forall x: nat :: x in found <==> Done(s, x) && Incomplete(defs, x) && ReachPlus(g, x, x)
  }

  // `t` extends `s`: the old part of the stack is untouched, everything new has a
  // larger discovery number, and nothing finished comes back.
  ghost predicate Extends(s: Scan, t: Scan) {
    && s.next <= t.next
    && s.stack <= t.stack
    && s.on <= t.on
    && (forall x :: x in s.num ==> x in t.num && t.num[x] == s.num[x] && (x in t.on ==> x in s.on))
    && (forall x :: x in s.low ==> x in t.low && t.low[x] == s.low[x])
    && (forall x :: x in t.num && x !in s.num ==> t.num[x] >= s.next)
  }

  // The low link of `v` is the number of a stacked position that `v` reaches.
  ghost predicate LowIsReached(g: Graph, t: Scan, v: nat) {
    && v in t.low
    && exists z: nat :: z in t.on && z in t.num && t.num[z] == t.low[v] && Reach(g, v, z)
  }

  // No edge from `segment` into `base` ends below the number `n`.
  ghost predicate LowIsLeast(g: Graph, num: map<nat, nat>, n: nat, segment: set<nat>, base: set<nat>) {
    forall y: nat, z: nat {:trigger z in g[y]} :: y in segment && y < |g| && z in g[y] && z in base && z in num ==>
      n <= num[z]
  }

  // What visiting the fresh position `v` from state `s` achieves.
  ghost predicate Visited(g: Graph, s: Scan, t: Scan, v: nat) {
    && Extends(s, t)
    && v !in s.num && v in t.num && v in t.low
    && t.num[v] == s.next
    && (v in t.on ==> LowIsReached(g, t, v) && t.low[v] < t.num[v])
    && (v !in t.on ==> t.on == s.on && t.low[v] == t.num[v])
    && LowIsLeast(g, t.num, t.low[v], t.on - s.on, s.on)
  }

  function Push(s: Scan, v: nat): Scan {
    Scan(s.next + 1, s.num[v := s.next], s.low[v := s.next], s.stack + [v], s.on + {v})
  }

  lemma PushKeepsShape(g: Graph, s: Scan, v: nat)
    requires Shape(g, s) && v !in s.num && v < |g|
    ensures Shape(g, Push(s, v))
  {
    var t := Push(s, v);
    forall i, j | 0 <= i < j < |t.stack|
      ensures && t.stack[i] in t.num && t.stack[j] in t.num && t.num[t.stack[i]] < t.num[t.stack[j]]
    {
      assert s.stack[i] in s.on;
      assert t.stack[i] in s.num;
    }
  }

  lemma PushKeepsExplored(g: Graph, num: map<nat, nat>, on: set<nat>, active: set<nat>, v: nat, n: nat)
    requires Explored(g, num, on, active) && v !in num
    requires active <= on <= num.Keys
    ensures Explored(g, num[v := n], on + {v}, active + {v})
  {
  }

  lemma PushKeepsReachUp(g: Graph, num: map<nat, nat>, on: set<nat>, active: set<nat>, v: nat, n: nat)
    requires ReachUp(g, num, on, active) && v !in num && v < |g|
    requires forall x :: x in num ==> num[x] < n
    requires on <= num.Keys
    requires forall x :: x in active ==> Reach(g, x, v)
    ensures ReachUp(g, num[v := n], on + {v}, active + {v})
  {
    ReachRefl(g, v);
  }

  lemma PushKeepsReachDown(g: Graph, num: map<nat, nat>, on: set<nat>, active: set<nat>, v: nat, n: nat)
    requires ReachDown(g, num, on, active) && v !in num && v < |g|
    requires on <= num.Keys
    ensures ReachDown(g, num[v := n], on + {v}, active + {v})
  {
    ReachRefl(g, v);
    forall y | y in on + {v} ensures ReachesActive(g, num[v := n], active + {v}, y) {
      if y == v {
        assert v in active + {v} && Reach(g, v, v);
      } else {
        assert ReachesActive(g, num, active, y);
      }
    }
  }

  lemma PushKeepsInv(g: Graph, s: Scan, active: set<nat>, v: nat)
    requires Inv(g, s, active) && v !in s.num && v < |g|
    requires forall x :: x in active ==> Reach(g, x, v)
    ensures Inv(g, Push(s, v), active + {v})
    ensures Extends(s, Push(s, v))
  {
    hide Explored, ReachUp, ReachDown;
    PushKeepsShape(g, s, v);
    PushKeepsExplored(g, s.num, s.on, active, v, s.next);
    PushKeepsReachUp(g, s.num, s.on, active, v, s.next);
    PushKeepsReachDown(g, s.num, s.on, active, v, s.next);
  }

  // The position `v` leaves the active set but stays on the stack, because it
  // reaches `z` below it: everything on the stack still reaches an active position.
  lemma RetireKeepsReachDown(g: Graph, num: map<nat, nat>, on: set<nat>, active: set<nat>, v: nat, z: nat)
    requires ReachDown(g, num, on, active + {v}) && on <= num.Keys
    requires v in on && z in on && num[z] < num[v] && Reach(g, v, z)
    ensures ReachDown(g, num, on, active)
  {
    hide Reach;
    assert ReachesActive(g, num, active + {v}, z);
    var x: nat :| x in active + {v} && x in num && num[x] <= num[z] && Reach(g, z, x);
    ReachTrans(g, v, z, x);
    forall y | y in on ensures ReachesActive(g, num, active, y) {
      assert ReachesActive(g, num, active + {v}, y);
      var w: nat :| w in active + {v} && w in num && num[w] <= num[y] && Reach(g, y, w);
      if w == v {
        ReachTrans(g, y, v, x);
      }
    }
  }

  lemma RetireKeepsExplored(g: Graph, num: map<nat, nat>, on: set<nat>, active: set<nat>, v: nat)
    requires Explored(g, num, on, active + {v})
    requires v < |g| && g[v] <= num.Keys
    ensures Explored(g, num, on, active)
  {
  }

  lemma RetireKeepsInv(g: Graph, s: Scan, active: set<nat>, v: nat)
    requires v < |g| && v in s.on && v !in active
    requires Inv(g, s, active + {v})
    requires g[v] <= s.num.Keys
    requires v in s.low && LowIsReached(g, s, v) && v in s.num && s.low[v] < s.num[v]
    ensures Inv(g, s, active)
  {
    assert ReachUp(g, s.num, s.on, active) by { hide Explored, ReachDown, Shape, LowIsReached, Reach; }
    hide Explored, ReachUp, ReachDown, Reach;
    RetireKeepsExplored(g, s.num, s.on, active, v);
    assert s.on <= s.num.Keys;
    hide Shape;
    var z: nat :| z in s.on && z in s.num && s.num[z] == s.low[v] && Reach(g, v, z);
    RetireKeepsReachDown(g, s.num, s.on, active, v, z);
  }

  // No edge leads from the stack segment above `base` back into `base`.
  ghost predicate NoWayBack(g: Graph, on: set<nat>, base: set<nat>) {
    forall x: nat, y: nat {:trigger y in g[x]} :: x in on && x !in base && x < |g| && y in g[x] ==> y !in base
  }

  // `v` is the lowest of the positions stacked above `base`.
  ghost predicate Lowest(num: map<nat, nat>, on: set<nat>, base: set<nat>, v: nat) {
    && base <= on <= num.Keys
    && v in on && v !in base
    && (forall x :: x in on && x !in base ==> num[v] <= num[x])
    && (forall x :: x in base ==> num[x] < num[v])
  }

  lemma SegmentIsClosed(g: Graph, num: map<nat, nat>, on: set<nat>, active: set<nat>, base: set<nat>, v: nat)
    requires v < |g| && g[v] <= num.Keys && active <= base <= on
    requires Explored(g, num, on, active + {v})
    requires NoWayBack(g, on, base)
    ensures Closed(g, num.Keys - base) && Closed(g, num.Keys - on)
  {
  }

  lemma EdgeStays(g: Graph, s: set<nat>, a: nat, b: nat)
    requires Closed(g, s) && a in s && a < |g| && b in g[a]
    ensures b in s
  {
  }

  // The segment above `base` is one strongly connected component with root `v`.
  lemma SegmentIsComponent(
      g: Graph, num: map<nat, nat>, on: set<nat>, active: set<nat>, base: set<nat>, v: nat, x: nat)
    requires Lowest(num, on, base, v) && active <= base
    requires Closed(g, num.Keys - base)
    requires ReachUp(g, num, on, active + {v}) && ReachDown(g, num, on, active + {v})
    requires x in on && x !in base
    ensures Reach(g, v, x) && Reach(g, x, v)
  {
    hide Reach, Closed;
    assert ReachesActive(g, num, active + {v}, x);
    var a: nat :| a in active + {v} && a in num && num[a] <= num[x] && Reach(g, x, a);
    if a != v {
      ClosedReach(g, num.Keys - base, x, a);
      assert false;
    }
  }

  // A member of that component lies on a cycle exactly when the component has a
  // second member or its root calls itself.
  lemma ComponentCycles(
      g: Graph, num: map<nat, nat>, on: set<nat>, active: set<nat>, base: set<nat>, v: nat, x: nat)
    requires WellFormed(g) && v < |g|
    requires Lowest(num, on, base, v) && active <= base
    requires Closed(g, num.Keys - base) && Closed(g, num.Keys - on)
    requires ReachUp(g, num, on, active + {v}) && ReachDown(g, num, on, active + {v})
    requires x in on && x !in base
    ensures ReachPlus(g, x, x) <==> on - base != {v} || v in g[v]
  {
    SegmentIsComponent(g, num, on, active, base, v, x);
    hide Reach, Closed, ReachUp, ReachDown;
    if on - base != {v} {
      var y: nat :| y in on - base && y != v;
      SegmentIsComponent(g, num, on, active, base, v, y);
      if x != v {
        MutualReachIsCycle(g, x, v);
      } else {
        MutualReachIsCycle(g, x, y);
      }
    } else if v in g[v] {
      ReachRefl(g, v);
    } else if ReachPlus(g, v, v) {
      var c: nat :| c in g[v] && Reach(g, c, v);
      EdgeStays(g, num.Keys - base, v, c);
      ClosedReach(g, num.Keys - on, c, v);
      assert false;
    }
  }

  // The state after the segment above `base` has been popped.
  function Pop(s: Scan, base: Scan): Scan {
    Scan(s.next, s.num, s.low, base.stack, base.on)
  }

  lemma PopKeepsShape(g: Graph, s: Scan, base: Scan)
    requires Shape(g, s) && Shape(g, base) && Extends(base, s)
    ensures Shape(g, Pop(s, base))
  {
  }

  lemma PopKeepsExplored(g: Graph, num: map<nat, nat>, on: set<nat>, active: set<nat>, base: set<nat>, v: nat)
    requires active <= base <= on <= num.Keys
    requires v < |g| && g[v] <= num.Keys
    requires Explored(g, num, on, active + {v}) && Closed(g, num.Keys - base)
    ensures Explored(g, num, base, active)
  {
  }

  lemma PopKeepsReachDown(g: Graph, num: map<nat, nat>, on: set<nat>, active: set<nat>, base: set<nat>, v: nat)
    requires Lowest(num, on, base, v)
    requires ReachDown(g, num, on, active + {v})
    ensures ReachDown(g, num, base, active)
  {
    hide Reach;
    forall y | y in base ensures ReachesActive(g, num, active, y) {
      assert ReachesActive(g, num, active + {v}, y);
    }
  }

  // What holds at the root of a component once all its edges have been examined.
  ghost predicate AtRoot(g: Graph, base: Scan, s: Scan, active: set<nat>, v: nat) {
    && WellFormed(g) && v < |g|
    && Inv(g, s, active + {v})
    && g[v] <= s.num.Keys
    && active <= base.on
    && Lowest(s.num, s.on, base.on, v)
    && NoWayBack(g, s.on, base.on)
  }

  lemma PopKeepsInv(g: Graph, base: Scan, s: Scan, active: set<nat>, v: nat)
    requires AtRoot(g, base, s, active, v)
    requires Shape(g, base) && Extends(base, s)
    ensures Inv(g, Pop(s, base), active)
  {
    assert Lowest(s.num, s.on, base.on, v);
    hide Explored, ReachDown, Reach, NoWayBack, Lowest;
    PopKeepsShape(g, s, base);
    hide Shape, Extends;
    assert base.on <= s.on <= s.num.Keys by { LowestBounds(s.num, s.on, base.on, v); }
    assert ReachUp(g, s.num, base.on, active);
    hide ReachUp;
    SegmentIsClosed(g, s.num, s.on, active, base.on, v);
    PopKeepsExplored(g, s.num, s.on, active, base.on, v);
    PopKeepsReachDown(g, s.num, s.on, active, base.on, v);
  }

  lemma LowestBounds(num: map<nat, nat>, on: set<nat>, base: set<nat>, v: nat)
    requires Lowest(num, on, base, v)
    ensures base <= on <= num.Keys && v in on && v !in base
  {
  }

  // The members of `component` that still need inference, in order.
  function KeepIncomplete(defs: seq<Definition>, component: seq<nat>): (r: seq<nat>)
    ensures forall x: nat :: x in r <==> x in component && Incomplete(defs, x)
  {
    if component == [] then []
    else
      var rest := KeepIncomplete(defs, component[1..]);
      assert component == [component[0]] + component[1..];
      if component[0] < |defs| && !HasCompleteContract(defs[component[0]]) then [component[0]] + rest else rest
  }

  lemma {:induction false} KeepIncompleteIsDistinct(defs: seq<Definition>, component: seq<nat>)
    requires Distinct(component)
    ensures Distinct(KeepIncomplete(defs, component))
  {
    if component != [] {
      assert component == [component[0]] + component[1..];
      DistinctSplit([component[0]], component[1..]);
      KeepIncompleteIsDistinct(defs, component[1..]);
      DistinctAppend([component[0]], KeepIncomplete(defs, component[1..]));
    }
  }

  lemma AtRootBounds(g: Graph, base: Scan, s: Scan, active: set<nat>, v: nat)
    requires AtRoot(g, base, s, active, v)
    ensures base.on <= s.on <= s.num.Keys && v in s.on && v !in base.on
  {
  }

  lemma MembersAreCyclic(g: Graph, base: Scan, s: Scan, active: set<nat>, v: nat, x: nat)
    requires AtRoot(g, base, s, active, v)
    requires x in s.on && x !in base.on
    ensures ReachPlus(g, x, x) <==> s.on - base.on != {v} || v in g[v]
  {
    LowestBounds(s.num, s.on, base.on, v);
    SegmentIsClosed(g, s.num, s.on, active, base.on, v);
    hide Explored, Closed, ReachUp, ReachDown, ReachPlus, NoWayBack, Shape, Lowest, WellFormed;
    ComponentCycles(g, s.num, s.on, active, base.on, v, x);
  }

  lemma AppendReport(
      g: Graph, defs: seq<Definition>, s: Scan, t: Scan, found: seq<nat>, more: seq<nat>)
    requires Reported(g, defs, s, found) && Distinct(more)
    requires forall x: nat :: Done(s, x) ==> Done(t, x)
    requires forall x: nat :: x in more <==> Done(t, x) && !Done(s, x) && Incomplete(defs, x) && ReachPlus(g, x, x)
    ensures Reported(g, defs, t, found + more)
  {
    hide Incomplete, ReachPlus, Done;
    DistinctAppend(found, more);
  }

  // Appending the incomplete members of a recursive component keeps the report exact.
  lemma ReportComponent(
      g: Graph, defs: seq<Definition>, base: Scan, s: Scan, active: set<nat>, v: nat,
      found: seq<nat>, component: seq<nat>, recursive: bool)
    requires AtRoot(g, base, s, active, v)
    requires Reported(g, defs, s, found)
    requires Distinct(component) && (forall x :: x in component <==> x in s.on - base.on)
    requires recursive <==> s.on - base.on != {v} || v in g[v]
    ensures Reported(g, defs, Pop(s, base), found + if recursive then KeepIncomplete(defs, component) else [])
  {
    AtRootBounds(g, base, s, active, v);
    hide AtRoot, ReachPlus, Incomplete, Reported, Distinct;
    KeepIncompleteIsDistinct(defs, component);
    var more := if recursive then KeepIncomplete(defs, component) else [];
    DistinctEmpty<nat>();
    forall x: nat
      ensures x in more <==> Done(Pop(s, base), x) && !Done(s, x) && Incomplete(defs, x) && ReachPlus(g, x, x)
    {
      if x in s.on - base.on {
        MembersAreCyclic(g, base, s, active, v, x);
      }
    }
    AppendReport(g, defs, s, Pop(s, base), found, more);
  }

  // Half-way through the edges of `v`, which was pushed on top of `base`:
  // `todo` holds the edges not yet examined.
  ghost predicate Progress(g: Graph, base: Scan, s: Scan, v: nat, todo: set<nat>) {
    && v < |g| && todo <= g[v]
    && Extends(base, s)
    && base.stack + [v] <= s.stack
    && v !in base.num && v !in base.low && v in s.num && v in s.on && v in s.low
    && s.num[v] == base.next && s.low[v] <= s.num[v]
    && LowIsReached(g, s, v)
    && LowIsLeast(g, s.num, s.low[v], s.on - base.on - {v}, base.on)
    && Examined(s, base, g[v] - todo, s.low[v])
  }

  ghost predicate Examined(s: Scan, base: Scan, edges: set<nat>, n: nat) {
    forall d :: d in edges ==> d in s.num && (d in base.on ==> n <= s.num[d])
  }

  function WithLow(s: Scan, v: nat, n: nat): Scan {
    s.(low := s.low[v := n])
  }

  function Min(a: nat, b: nat): nat {
    if a <= b then a else b
  }

  lemma StartProgress(g: Graph, base: Scan, v: nat)
    requires Shape(g, base) && v < |g| && v !in base.num
    ensures Progress(g, base, Push(base, v), v, g[v])
  {
    ReachRefl(g, v);
    var t := Push(base, v);
    assert base.on <= base.num.Keys;
    hide Shape, Reach;
    assert v in t.on && t.num[v] == t.low[v];
    assert t.on - base.on - {v} == {};
  }

  lemma LowerKeepsInv(g: Graph, s: Scan, active: set<nat>, v: nat, n: nat)
    requires Inv(g, s, active) && v in s.low
    ensures Inv(g, WithLow(s, v, n), active)
  {
    hide Explored, ReachUp, ReachDown;
    assert WithLow(s, v, n).low.Keys == s.low.Keys;
  }

  lemma SkipFinished(g: Graph, base: Scan, s: Scan, v: nat, todo: set<nat>, d: nat)
    requires Progress(g, base, s, v, todo)
    requires d in todo && d in s.num && d !in s.on
    ensures Progress(g, base, s, v, todo - {d})
  {
    hide LowIsReached, LowIsLeast;
  }

  lemma LowerLeast(g: Graph, num: map<nat, nat>, n: nat, m: nat, segment: set<nat>, base: set<nat>)
    requires LowIsLeast(g, num, n, segment, base) && m <= n
    ensures LowIsLeast(g, num, m, segment, base)
  {
  }

  lemma LowerToStacked(g: Graph, base: Scan, s: Scan, v: nat, todo: set<nat>, d: nat)
    requires WellFormed(g)
    requires Progress(g, base, s, v, todo)
    requires d in todo && d in s.num && d in s.on
    ensures Progress(g, base, WithLow(s, v, Min(s.low[v], s.num[d])), v, todo - {d})
  {
    var t := WithLow(s, v, Min(s.low[v], s.num[d]));
    ReachEdge(g, v, d);
    LowerLeast(g, s.num, s.low[v], t.low[v], s.on - base.on - {v}, base.on);
    hide Reach, LowIsLeast, WellFormed;
  }

  lemma ExtendsTrans(r: Scan, s: Scan, t: Scan)
    requires Extends(r, s) && Extends(s, t)
    ensures Extends(r, t)
  {
  }

  // Taking over the child's low link keeps it the number of something reached.
  lemma ChildLowIsReached(g: Graph, s: Scan, t: Scan, v: nat, d: nat)
    requires WellFormed(g) && v < |g| && d in g[v]
    requires v in s.num && v in s.low && v in t.low && s.low[v] <= s.num[v] < s.next
    requires LowIsReached(g, s, v) && Visited(g, s, t, d)
    ensures LowIsReached(g, WithLow(t, v, Min(t.low[v], t.low[d])), v)
  {
    var u := WithLow(t, v, Min(t.low[v], t.low[d]));
    hide LowIsLeast, Reach;
    if t.low[v] <= t.low[d] {
      var z: nat :| z in s.on && z in s.num && s.num[z] == s.low[v] && Reach(g, v, z);
      assert z in t.num && u.num[z] == u.low[v];
    } else {
      var z: nat :| z in t.on && z in t.num && t.num[z] == t.low[d] && Reach(g, d, z);
      ReachEdge(g, v, d);
      ReachTrans(g, v, d, z);
    }
  }

  lemma ChildLowIsLeast(g: Graph, base: Scan, s: Scan, t: Scan, v: nat, d: nat, n: nat)
    requires Extends(base, s) && Extends(s, t) && v in s.low && d in t.low
    requires LowIsLeast(g, s.num, s.low[v], s.on - base.on - {v}, base.on)
    requires LowIsLeast(g, t.num, t.low[d], t.on - s.on, s.on)
    requires n <= s.low[v] && n <= t.low[d]
    requires base.on <= base.num.Keys
    ensures LowIsLeast(g, t.num, n, t.on - base.on - {v}, base.on)
  {
  }

  lemma ExtendsWithLow(r: Scan, s: Scan, v: nat, n: nat)
    requires Extends(r, s) && v !in r.low
    ensures Extends(r, WithLow(s, v, n))
  {
  }

  lemma ChildIsExamined(base: Scan, s: Scan, t: Scan, edges: set<nat>, v: nat, d: nat, n: nat, m: nat)
    requires Examined(s, base, edges, n) && m <= n
    requires Extends(s, t) && d in t.num && d !in base.on
    ensures Examined(WithLow(t, v, m), base, edges + {d}, m)
  {
  }

  lemma ExtendsPoint(s: Scan, t: Scan, v: nat)
    requires Extends(s, t) && v in s.num && v in s.low && v in s.on
    ensures v in t.num && v in t.low && v in t.on
    ensures t.num[v] == s.num[v] && t.low[v] == s.low[v]
    ensures s.stack <= t.stack && s.on <= t.on
  {
  }

  lemma ShapeBounds(g: Graph, s: Scan)
    requires Shape(g, s)
    ensures s.on <= s.num.Keys && s.low.Keys == s.num.Keys
    ensures forall x :: x in s.num ==> x < |g| && s.num[x] < s.next
  {
  }

  lemma AfterChild(g: Graph, base: Scan, s: Scan, t: Scan, v: nat, todo: set<nat>, d: nat)
    requires WellFormed(g) && Shape(g, base) && Shape(g, s)
    requires Progress(g, base, s, v, todo) && d in todo
    requires Visited(g, s, t, d)
    ensures Progress(g, base, WithLow(t, v, Min(t.low[v], t.low[d])), v, todo - {d})
  {
    hide Shape, WellFormed, LowIsReached, LowIsLeast, Extends, Examined;
    ShapeBounds(g, base);
    ShapeBounds(g, s);
    ExtendsPoint(s, t, v);
    ExtendsTrans(base, s, t);
    var n := Min(t.low[v], t.low[d]);
    ExtendsWithLow(base, t, v, n);
    ChildLowIsReached(g, s, t, v, d);
    ChildLowIsLeast(g, base, s, t, v, d, n);
    FreshIsAbove(base, s, d);
    ChildIsExamined(base, s, t, g[v] - todo, v, d, s.low[v], n);
    assert g[v] - (todo - {d}) == g[v] - todo + {d};
  }

  lemma FreshIsAbove(base: Scan, s: Scan, d: nat)
    requires Extends(base, s) && d !in s.num && base.on <= base.num.Keys
    ensures d !in base.on
  {
  }

  lemma SegmentIsLowest(base: Scan, s: Scan, v: nat)
    requires Extends(base, s) && base.on <= base.num.Keys && s.on <= s.num.Keys
    requires forall x :: x in base.num ==> base.num[x] < base.next
    requires v !in base.num && v in s.on && s.num[v] == base.next
    ensures Lowest(s.num, s.on, base.on, v)
  {
  }

  lemma SegmentHasNoWayBack(g: Graph, base: Scan, s: Scan, v: nat)
    requires v < |g| && v in s.num
    requires Lowest(s.num, s.on, base.on, v)
    requires LowIsLeast(g, s.num, s.num[v], s.on - base.on - {v}, base.on)
    requires Examined(s, base, g[v], s.num[v])
    ensures NoWayBack(g, s.on, base.on)
    ensures g[v] <= s.num.Keys
  {
  }

  // All edges of `v` examined and its low link still its own number: a root.
  lemma FinishedAtRoot(g: Graph, base: Scan, s: Scan, active: set<nat>, v: nat)
    requires WellFormed(g) && Shape(g, base) && active <= base.on
    requires Inv(g, s, active + {v})
    requires Progress(g, base, s, v, {}) && s.low[v] == s.num[v]
    ensures AtRoot(g, base, s, active, v)
  {
    hide Shape, WellFormed, LowIsReached, LowIsLeast, Explored, ReachUp, ReachDown, Examined, Extends, Lowest,
         NoWayBack;
    ShapeBounds(g, base);
    ShapeBounds(g, s);
    assert g[v] - {} == g[v];
    SegmentIsLowest(base, s, v);
    SegmentHasNoWayBack(g, base, s, v);
  }

  // All edges of `v` examined and its low link below its own number: `v` stays.
  lemma FinishedBelowRoot(g: Graph, base: Scan, s: Scan, active: set<nat>, v: nat)
    requires WellFormed(g) && Shape(g, base) && active <= base.on
    requires Inv(g, s, active + {v})
    requires Progress(g, base, s, v, {}) && s.low[v] != s.num[v]
    ensures Inv(g, s, active) && Visited(g, base, s, v)
  {
    hide Shape, WellFormed, LowIsReached, LowIsLeast, Explored, ReachUp, ReachDown, Examined, Extends;
    ShapeBounds(g, base);
    ShapeBounds(g, s);
    assert g[v] - {} == g[v];
    OwnEdgesAreLeast(g, base, s, v);
    RetireKeepsInv(g, s, active, v);
  }

  lemma OwnEdgesAreLeast(g: Graph, base: Scan, s: Scan, v: nat)
    requires v < |g| && v in s.low
    requires LowIsLeast(g, s.num, s.low[v], s.on - base.on - {v}, base.on)
    requires Examined(s, base, g[v], s.low[v])
    ensures LowIsLeast(g, s.num, s.low[v], s.on - base.on, base.on)
    ensures g[v] <= s.num.Keys
  {
  }

  lemma PopIsVisited(g: Graph, base: Scan, s: Scan, v: nat)
    requires Extends(base, s) && v !in base.num && v !in base.on && v in s.num && v in s.low
    requires s.num[v] == base.next == s.low[v]
    ensures Visited(g, base, Pop(s, base), v)
  {
  }

  lemma PushKeepsReport(g: Graph, defs: seq<Definition>, s: Scan, v: nat, found: seq<nat>)
    requires Reported(g, defs, s, found) && v !in s.num
    ensures Reported(g, defs, Push(s, v), found)
  {
    hide ReachPlus, Incomplete, Distinct;
    assert forall x: nat :: Done(s, x) <==> Done(Push(s, v), x);
  }

  lemma LowerKeepsReport(g: Graph, defs: seq<Definition>, s: Scan, v: nat, n: nat, found: seq<nat>)
    requires Reported(g, defs, s, found)
    ensures Reported(g, defs, WithLow(s, v, n), found)
  {
    hide ReachPlus, Incomplete, Distinct;
    assert forall x: nat :: Done(s, x) <==> Done(WithLow(s, v, n), x);
  }

  lemma ActiveReachEdge(g: Graph, active: set<nat>, v: nat, d: nat)
    requires WellFormed(g) && v < |g| && d in g[v]
    requires forall x :: x in active ==> Reach(g, x, v)
    ensures forall x :: x in active + {v} ==> Reach(g, x, d)
  {
    ReachEdge(g, v, d);
    hide Reach;
    forall x | x in active ensures Reach(g, x, d) {
      ReachTrans(g, x, v, d);
    }
  }

  // When the fresh position `v` may be visited, and what the visit leaves behind.
  ghost predicate Before(g: Graph, defs: seq<Definition>, s: Scan, active: set<nat>, v: nat) {
    && WellFormed(g) && |g| == |defs|
    && v < |g| && v !in s.num
    && (forall x :: x in active ==> Reach(g, x, v))
    && Inv(g, s, active)
  }

  ghost predicate After(
    g: Graph, defs: seq<Definition>, base: Scan, s: Scan, active: set<nat>, v: nat, found: seq<nat>)
  {
    && Inv(g, s, active)
    && Reported(g, defs, s, found)
    && Visited(g, base, s, v)
  }

  // The invariant of the loop over the edges of `v`.
  ghost predicate Midway(
    g: Graph, defs: seq<Definition>, base: Scan, s: Scan, active: set<nat>, v: nat, todo: set<nat>, found: seq<nat>)
  {
    && Before(g, defs, base, active, v)
    && Progress(g, base, s, v, todo)
    && Inv(g, s, active + {v})
    && Reported(g, defs, s, found)
  }

  lemma BeforeFacts(g: Graph, defs: seq<Definition>, s: Scan, active: set<nat>, v: nat)
    requires Before(g, defs, s, active, v)
    ensures v < |g| == |defs| && v !in s.num
  {
  }

  lemma Enter(g: Graph, defs: seq<Definition>, s: Scan, active: set<nat>, v: nat, found: seq<nat>)
    requires Before(g, defs, s, active, v) && Reported(g, defs, s, found)
    ensures Midway(g, defs, s, Push(s, v), active, v, g[v], found)
  {
    hide Reported, Shape, Explored, ReachUp, ReachDown, Reach, WellFormed, Progress;
    PushKeepsInv(g, s, active, v);
    PushKeepsReport(g, defs, s, v, found);
    StartProgress(g, s, v);
  }

  lemma MidwayFacts(
      g: Graph, defs: seq<Definition>, base: Scan, s: Scan, active: set<nat>, v: nat, todo: set<nat>, found: seq<nat>)
    requires Midway(g, defs, base, s, active, v, todo, found)
    ensures v in s.low && v in s.num && v !in base.num && todo <= g[v] && v < |g| == |defs|
    ensures base.num.Keys <= s.num.Keys && s.on <= s.num.Keys
    ensures forall d :: d in todo ==> d < |g|
  {
    hide Reported, Explored, ReachUp, ReachDown, Reach, LowIsReached, LowIsLeast, Examined;
    ShapeBounds(g, s);
  }

  lemma BeforeChild(
      g: Graph, defs: seq<Definition>, base: Scan, s: Scan, active: set<nat>, v: nat, todo: set<nat>, found: seq<nat>,
      d: nat)
    requires Midway(g, defs, base, s, active, v, todo, found)
    requires d in todo && d !in s.num
    ensures Before(g, defs, s, active + {v}, d) && Reported(g, defs, s, found)
  {
    MidwayFacts(g, defs, base, s, active, v, todo, found);
    hide Reported, Inv, Reach, Progress;
    ActiveReachEdge(g, active, v, d);
  }

  lemma ChildReturns(
      g: Graph, defs: seq<Definition>, base: Scan, s: Scan, t: Scan, active: set<nat>, v: nat, todo: set<nat>,
      found: seq<nat>, found': seq<nat>, d: nat)
    requires Midway(g, defs, base, s, active, v, todo, found)
    requires d in todo && After(g, defs, s, t, active + {v}, d, found')
    ensures v in t.low && d in t.low
    ensures Midway(g, defs, base, WithLow(t, v, Min(t.low[v], t.low[d])), active, v, todo - {d}, found')
  {
    hide Reported, Shape, Explored, ReachUp, ReachDown, Reach, WellFormed, LowIsReached, LowIsLeast, Extends, Examined;
    MidwayFacts(g, defs, base, s, active, v, todo, found);
    assert Before(g, defs, base, active, v) && Progress(g, base, s, v, todo) && Shape(g, s) && Shape(g, base);
    assert Visited(g, s, t, d) && Inv(g, t, active + {v}) && WellFormed(g);
    ExtendsPoint(s, t, v);
    hide Inv, Progress, Before, Visited;
    var n := Min(t.low[v], t.low[d]);
    AfterChild(g, base, s, t, v, todo, d);
    LowerKeepsInv(g, t, active + {v}, v, n);
    LowerKeepsReport(g, defs, t, v, n, found');
  }

  lemma EdgeToStack(
      g: Graph, defs: seq<Definition>, base: Scan, s: Scan, active: set<nat>, v: nat, todo: set<nat>, found: seq<nat>,
      d: nat)
    requires Midway(g, defs, base, s, active, v, todo, found)
    requires d in todo && d in s.num && d in s.on && v in s.low
    ensures Midway(g, defs, base, WithLow(s, v, Min(s.low[v], s.num[d])), active, v, todo - {d}, found)
  {
    hide Reported, Shape, Explored, ReachUp, ReachDown, Reach, Progress, WellFormed;
    var n := Min(s.low[v], s.num[d]);
    LowerToStacked(g, base, s, v, todo, d);
    LowerKeepsInv(g, s, active + {v}, v, n);
    LowerKeepsReport(g, defs, s, v, n, found);
  }

  lemma EdgeToFinished(
      g: Graph, defs: seq<Definition>, base: Scan, s: Scan, active: set<nat>, v: nat, todo: set<nat>, found: seq<nat>,
      d: nat)
    requires Midway(g, defs, base, s, active, v, todo, found)
    requires d in todo && d in s.num && d !in s.on
    ensures Midway(g, defs, base, s, active, v, todo - {d}, found)
  {
    hide Reported, Inv, Reach, Progress, WellFormed;
    SkipFinished(g, base, s, v, todo, d);
  }

  lemma LeaveBelowRoot(
      g: Graph, defs: seq<Definition>, base: Scan, s: Scan, active: set<nat>, v: nat, found: seq<nat>)
    requires Midway(g, defs, base, s, active, v, {}, found)
    requires v in s.low && v in s.num && s.low[v] != s.num[v]
    ensures After(g, defs, base, s, active, v, found)
  {
    hide Reported, Shape, Explored, ReachUp, ReachDown, Reach, Progress, WellFormed;
    FinishedBelowRoot(g, base, s, active, v);
  }

  lemma ReachRoot(
      g: Graph, defs: seq<Definition>, base: Scan, s: Scan, active: set<nat>, v: nat, found: seq<nat>)
    requires Midway(g, defs, base, s, active, v, {}, found)
    requires v in s.low && v in s.num && s.low[v] == s.num[v]
    ensures AtRoot(g, base, s, active, v)
    ensures Shape(g, s) && Shape(g, base) && Extends(base, s)
    ensures base.stack + [v] <= s.stack
  {
    hide Reported, Shape, Explored, ReachUp, ReachDown, Reach, WellFormed, AtRoot, LowIsReached, LowIsLeast, Examined,
         Extends;
    FinishedAtRoot(g, base, s, active, v);
  }

  lemma LeaveAtRoot(
      g: Graph, defs: seq<Definition>, base: Scan, s: Scan, active: set<nat>, v: nat, found: seq<nat>,
      component: seq<nat>, recursive: bool)
    requires Midway(g, defs, base, s, active, v, {}, found)
    requires v in s.low && v in s.num && s.low[v] == s.num[v]
    requires Distinct(component) && (forall x :: x in component <==> x in s.on - base.on)
    requires recursive <==> s.on - base.on != {v} || v in g[v]
    ensures After(g, defs, base, Pop(s, base), active, v,
                  if recursive then found + KeepIncomplete(defs, component) else found)
  {
    hide Reported, Shape, Explored, ReachUp, ReachDown, Reach, WellFormed, AtRoot, LowIsReached, LowIsLeast, Examined,
         Extends, Visited, Distinct, Incomplete;
    ReachRoot(g, defs, base, s, active, v, found);
    ShapeBounds(g, base);
    assert Reported(g, defs, s, found) && s.num[v] == base.next && v !in base.num && v !in base.on;
    hide Inv, Midway, Before, Progress;
    PopKeepsInv(g, base, s, active, v);
    ReportComponent(g, defs, base, s, active, v, found, component, recursive);
    assert found + [] == found;
    PopIsVisited(g, base, s, v);
  }

  lemma StackIsDistinct(g: Graph, s: Scan)
    requires Shape(g, s)
    ensures Distinct(s.stack)
  {
  }

  // Part-way through popping the stack `full`: `component` holds what was removed.
  ghost predicate Popping(full: seq<nat>, stack: seq<nat>, on: set<nat>, component: seq<nat>) {
    && stack <= full
    && (forall x :: x in on <==> x in stack)
    && Distinct(component)
    && (forall x :: x in component <==> x in full[|stack|..])
  }

  lemma PopOne(full: seq<nat>, stack: seq<nat>, on: set<nat>, component: seq<nat>)
    requires Distinct(full) && Popping(full, stack, on, component) && stack != []
    ensures
      var top := stack[|stack| - 1];
      Popping(full, stack[..|stack| - 1], on - {top}, component + [top]) && top == full[|stack| - 1]
  {
    var top := stack[|stack| - 1];
    var rest := stack[..|stack| - 1];
    assert full[|rest|..] == [top] + full[|stack|..];
    assert stack == rest + [top];
    assert full == stack + full[|stack|..];
    DistinctSplit(stack, full[|stack|..]);
    DistinctSplit(rest, [top]);
    DistinctAppend(component, [top]);
  }

  lemma Popped(full: seq<nat>, stack: seq<nat>, on: set<nat>, component: seq<nat>, fullOn: set<nat>, node: nat)
    requires Distinct(full) && Popping(full, stack, on, component) && stack + [node] <= full
    requires forall x :: x in fullOn <==> x in full
    ensures forall x :: x in component <==> x in fullOn - on
    ensures |component| > 1 <==> fullOn - on != {node}
  {
    assert full == stack + full[|stack|..];
    DistinctSplit(stack, full[|stack|..]);
    assert node == full[|stack|..][0];
    hide Distinct;
    SingletonSize(component, fullOn - on, node);
  }

  lemma SameElement<T>(q: seq<T>, i: nat, j: nat)
    requires Distinct(q) && i < |q| && j < |q| && q[i] == q[j]
    ensures i == j
  {
  }

  // A duplicate-free list of the members of `s` has one entry only when `s` is a singleton.
  lemma SingletonSize<T>(q: seq<T>, s: set<T>, x: T)
    requires Distinct(q) && x in s && forall y :: y in q <==> y in s
    ensures |q| > 1 <==> s != {x}
  {
    if |q| > 1 {
      assert q[0] != q[1] && q[0] in s && q[1] in s;
    } else {
      assert |q| == 1;
      assert forall y :: y in s ==> y in q && y == q[0];
    }
  }

  predicate Position(i: nat, n: nat) {
    i < n
  }

  function Positions(n: nat): (r: set<nat>) {
    set i: nat | i < n && Position(i, n)
  }

  /** One run of the recursion check. */
  class CycleFinder {
    const defs: seq<Definition>
    const dependencies: Graph
    var index: nat
    var indexes: map<nat, nat>
    var lowlinks: map<nat, nat>
    var stack: seq<nat>
    var onStack: set<nat>
    var incomplete: seq<nat>

    ghost function Now(): Scan
      reads this
    {
      Scan(index, indexes, lowlinks, stack, onStack)
    }

    constructor (defs: seq<Definition>, dependencies: Graph)
      ensures this.defs == defs && this.dependencies == dependencies
      ensures Now() == Scan(0, map[], map[], [], {}) && incomplete == []
    {
      this.defs, this.dependencies := defs, dependencies;
      index, indexes, lowlinks, stack, onStack, incomplete := 0, map[], map[], [], {}, [];
    }

    // Visit one definition. `active` is the set of definitions being visited.
    method Connect(node: nat, ghost active: set<nat>)
      requires Before(dependencies, defs, Now(), active, node)
      requires Reported(dependencies, defs, Now(), incomplete)
      modifies this
      ensures After(dependencies, defs, old(Now()), Now(), active, node, incomplete)
      decreases Positions(|defs|) - indexes.Keys
    {
      hide Before, Midway, After, AtRoot, Reported, Shape, Extends, Distinct;
      ghost var base := Now();
      BeforeFacts(dependencies, defs, base, active, node);
      Enter(dependencies, defs, base, active, node, incomplete);
      indexes := indexes[node := index];
      lowlinks := lowlinks[node := index];
      index := index + 1;
      stack := stack + [node];
      onStack := onStack + {node};

      var todo := dependencies[node];
      while todo != {}
        invariant Midway(dependencies, defs, base, Now(), active, node, todo, incomplete)
        decreases todo
      {
        var dependency: nat :| dependency in todo;
        ghost var s, found := Now(), incomplete;
        MidwayFacts(dependencies, defs, base, s, active, node, todo, found);
        if dependency !in indexes {
          BeforeChild(dependencies, defs, base, s, active, node, todo, found, dependency);
          Connect(dependency, active + {node});
          ChildReturns(dependencies, defs, base, s, Now(), active, node, todo, found, incomplete, dependency);
          lowlinks := lowlinks[node := Min(lowlinks[node], lowlinks[dependency])];
        } else if dependency in onStack {
          EdgeToStack(dependencies, defs, base, s, active, node, todo, found, dependency);
          lowlinks := lowlinks[node := Min(lowlinks[node], indexes[dependency])];
        } else {
          EdgeToFinished(dependencies, defs, base, s, active, node, todo, found, dependency);
        }
        todo := todo - {dependency};
      }

      ghost var s, found := Now(), incomplete;
      MidwayFacts(dependencies, defs, base, s, active, node, {}, found);
      if lowlinks[node] != indexes[node] {
        LeaveBelowRoot(dependencies, defs, base, s, active, node, found);
        return;
      }
      ReachRoot(dependencies, defs, base, s, active, node, found);
      var component := PopComponent(node, base);
      var recursive := |component| > 1 || node in dependencies[node];
      LeaveAtRoot(dependencies, defs, base, s, active, node, found, component, recursive);
      if recursive {
        incomplete := incomplete + KeepIncomplete(defs, component);
      }
    }

    // Pop the component rooted at `node` off the stack, topmost member first.
    method PopComponent(node: nat, ghost base: Scan) returns (component: seq<nat>)
      requires Shape(dependencies, Now()) && Shape(dependencies, base) && Extends(base, Now())
      requires base.stack + [node] <= stack
      modifies this`stack, this`onStack
      ensures Now() == Pop(old(Now()), base)
      ensures Distinct(component)
      ensures forall x :: x in component <==> x in old(onStack) - base.on
      ensures |component| > 1 <==> old(onStack) - base.on != {node}
    {
      ghost var full, fullOn := stack, onStack;
      StackIsDistinct(dependencies, Now());
      assert forall x :: x in base.on <==> x in base.stack;
      assert forall x :: x in onStack <==> x in stack;
      component := [];
      DistinctEmpty<nat>();
      assert base.stack <= stack && stack[|base.stack|] == node;
      hide Shape, Extends, Distinct;
      assert Popping(full, stack, onStack, component);
      while true
        invariant |base.stack| < |stack|
        invariant Popping(full, stack, onStack, component)
        decreases |stack|
      {
        var member := stack[|stack| - 1];
        PopOne(full, stack, onStack, component);
        hide Popping;
        stack := stack[..|stack| - 1];
        onStack := onStack - {member};
        component := component + [member];
        if member == node {
          SameElement(full, |stack|, |base.stack|);
          break;
        }
      }
      assert stack == base.stack;
      assert onStack == base.on;
      Popped(full, stack, onStack, component, fullOn, node);
    }
  }

  lemma InitialState(g: Graph, defs: seq<Definition>)
    ensures Inv(g, Scan(0, map[], map[], [], {}), {})
    ensures Reported(g, defs, Scan(0, map[], map[], [], {}), [])
  {
  }

  lemma AfterGrows(g: Graph, defs: seq<Definition>, s: Scan, t: Scan, active: set<nat>, v: nat, found: seq<nat>)
    requires After(g, defs, s, t, active, v, found)
    ensures Inv(g, t, active) && Reported(g, defs, t, found)
    ensures s.num.Keys <= t.num.Keys && v in t.num
  {
    hide Inv, Reported, LowIsReached, LowIsLeast;
  }

  // Something stays on the stack only while some position is being visited.
  lemma StackNeedsActive(g: Graph, s: Scan, active: set<nat>)
    requires Inv(g, s, active)
    ensures active == {} ==> s.on == {}
  {
    if y: nat :| y in s.on {
      assert ReachesActive(g, s.num, active, y);
    }
  }

  // The report names exactly the definitions that still need inference and lie
  // on a cycle, each of them once.
  method IncompleteCycleMembers(defs: seq<Definition>, dependencies: Graph) returns (members: seq<nat>)
    requires WellFormed(dependencies) && |dependencies| == |defs|
    ensures Distinct(members)
    ensures forall i: nat :: i in members <==> Incomplete(defs, i) && ReachPlus(dependencies, i, i)
  {
    var finder := new CycleFinder(defs, dependencies);
    InitialState(dependencies, defs);
    hide Inv, Reported, Reach, ReachPlus, WellFormed, After, Incomplete, Distinct;
    for k := 0 to |defs|
      invariant finder.defs == defs && finder.dependencies == dependencies
      invariant Inv(dependencies, finder.Now(), {})
      invariant Reported(dependencies, defs, finder.Now(), finder.incomplete)
      invariant forall i: nat :: i < k ==> i in finder.indexes
    {
      if k !in finder.indexes {
        ghost var s := finder.Now();
        finder.Connect(k, {});
        AfterGrows(dependencies, defs, s, finder.Now(), {}, k, finder.incomplete);
      }
    }
    StackNeedsActive(dependencies, finder.Now(), {});
    members := finder.incomplete;
    FinalReport(dependencies, defs, finder.Now(), members);
  }

  // A definition that calls its own name is reported as soon as one part of its
  // signature is missing, and never when it has an overload.
  lemma SelfCallIsReported(defs: seq<Definition>, g: Graph, members: seq<nat>, i: nat)
    requires WellFormed(g) && IsDependencyGraph(defs, g) && i < |defs|
    requires forall k: nat :: k in members <==> Incomplete(defs, k) && ReachPlus(g, k, k)
    requires CalledIn(defs[i].callable, defs[i].name)
    ensures i in members <==> defs[i].callable.overloads == [] && LacksPart(defs[i])
  {
    hide CalledIn, LacksPart, HasCompleteContract, Reach;
    IncompleteExactlyWhenErased(defs[i]);
    assert DependsOn(defs, i, i);
    ReachRefl(g, i);
  }

  lemma FinalReport(g: Graph, defs: seq<Definition>, s: Scan, found: seq<nat>)
    requires Reported(g, defs, s, found) && s.on == {}
    requires forall i: nat :: i < |defs| ==> i in s.num
    ensures Distinct(found)
    ensures forall i: nat :: i in found <==> Incomplete(defs, i) && ReachPlus(g, i, i)
  {
    hide ReachPlus, Distinct;
  }
}
