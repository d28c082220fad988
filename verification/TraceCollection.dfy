/** The collector of one analysis request: allocation under a limit, publication of
    function exits, and inspection under a budget of visits. */
module TraceCollection {
  import opened Options
  import opened Sequences
  import opened Traces
  import opened TraceOrder

  /** A function exit published for inspection. */
  datatype Published = Published(node: string, exits: seq<nat>)

  datatype Collector = Collector(
    limit: nat,
    nodes: seq<Trace>,
    truncated: bool,
    functions: seq<Published>,
    visits: nat)

  function Empty(limit: nat): Collector {
    Collector(limit, [], false, [], 0)
  }

  ghost predicate Sound(c: Collector) {
    Acyclic(c.nodes) && |c.nodes| <= c.limit
  }

  // Allocate one node, or stop collecting at the limit.
  function Allocate(c: Collector, trace: Trace): (Collector, Option<nat>) {
    if |c.nodes| >= c.limit then (c.(truncated := true, functions := []), None)
    else (c.(nodes := c.nodes + [trace]), Some(|c.nodes|))
  }

  // The traces that are there, each at its first occurrence.
  function Present(traces: seq<Option<nat>>): seq<nat> {
    if traces == [] then []
    else
      var front, last := Present(traces[..|traces| - 1]), traces[|traces| - 1];
      if last.Some? && last.value !in front then front + [last.value] else front
  }

  lemma {:induction false} PresentOnce(traces: seq<Option<nat>>)
    ensures Distinct(Present(traces))
    ensures forall t :: t in Present(traces) <==> Some(t) in traces
  {
    if traces != [] {
      var rest, last := traces[..|traces| - 1], traces[|traces| - 1];
      assert traces == rest + [last];
      PresentOnce(rest);
      if last.Some? {
        assert Distinct([last.value]);
        if last.value !in Present(rest) {
          DistinctAppend(Present(rest), [last.value]);
        }
      }
    }
  }

  // Keep all control-flow ancestry, without a new node for fewer than two traces.
  function Join(c: Collector, traces: seq<Option<nat>>): (Collector, Option<nat>) {
    var parents := Present(traces);
    if |parents| == 0 then (c, None)
    else if |parents| == 1 then (c, Some(parents[0]))
    else Allocate(c, Trace(parents, None, None))
  }

  function Finish(c: Collector, node: string, exits: seq<nat>): Collector {
    if c.truncated then c else c.(functions := c.functions + [Published(node, exits)])
  }

  // Is the budget enough for every visit on a path to the exit?
  ghost predicate WithinBudget(c: Collector, exit: nat)
    requires Sound(c) && exit < |c.nodes|
  {
    c.visits + |PathVisits(c.nodes, exit)| <= 8 * c.limit
  }

  // A walk past the budget stops at the first visit too many.
  ghost function Inspected(c: Collector, exit: nat): Collector
    requires Sound(c) && exit < |c.nodes|
  {
    if WithinBudget(c, exit) then c.(visits := c.visits + |PathVisits(c.nodes, exit)|)
    else c.(visits := (if c.visits > 8 * c.limit then c.visits else 8 * c.limit) + 1, truncated := true)
  }

  /* The walk and its budget. */

  // Having made some visits, all of them within the budget, after `start` earlier ones.
  ghost predicate Budgeted(limit: nat, start: nat, visits: nat, made: seq<Visit>) {
    visits == start + |made| && (made != [] ==> visits <= 8 * limit)
  }

  lemma MadeAreVisits(nodes: seq<Trace>, exit: nat, made: seq<Visit>)
    requires Acyclic(nodes) && exit < |nodes|
    requires Distinct(made) && forall v :: v in made ==> OnPath(nodes, exit, v)
    ensures |made| <= |PathVisits(nodes, exit)|
    ensures (forall v :: OnPath(nodes, exit, v) ==> v in made) ==> |made| == |PathVisits(nodes, exit)|
  {
    hide OnPath, Acyclic, Distinct, PathVisits;
    forall v ensures v in PathVisits(nodes, exit) <==> OnPath(nodes, exit, v) {
      PathVisitsAreExact(nodes, exit, v);
    }
    DistinctSize(made, PathVisits(nodes, exit));
  }

  // Every visit made and none left: the budget was enough.
  lemma WalkWasWithin(c: Collector, exit: nat, visits: nat, made: seq<Visit>)
    requires Sound(c) && exit < |c.nodes| && Budgeted(c.limit, c.visits, visits, made)
    requires Distinct(made) && forall v :: v in made <==> OnPath(c.nodes, exit, v)
    ensures WithinBudget(c, exit) && Inspected(c, exit) == c.(visits := visits)
  {
    hide OnPath, Distinct, PathVisits;
    MadeAreVisits(c.nodes, exit, made);
    assert made != [] by { PathStart(c.nodes, exit); }
  }

  // One visit more than the budget allows.
  lemma WalkWentOver(c: Collector, exit: nat, visits: nat, made: seq<Visit>, v: Visit)
    requires Sound(c) && exit < |c.nodes| && Budgeted(c.limit, c.visits, visits, made) && visits + 1 > 8 * c.limit
    requires Distinct(made + [v]) && forall w :: w in made + [v] ==> OnPath(c.nodes, exit, w)
    ensures !WithinBudget(c, exit) && Inspected(c, exit) == c.(visits := visits + 1, truncated := true)
  {
    hide OnPath, Distinct, PathVisits;
    MadeAreVisits(c.nodes, exit, made + [v]);
  }

  lemma WalkingMade(nodes: seq<Trace>, exit: nat, made: seq<Visit>, seen: set<Visit>, pending: seq<Visit>)
    requires Walking(nodes, exit, made, seen, pending)
    ensures Distinct(made) && forall v :: v in made ==> OnPath(nodes, exit, v)
  {
    hide OnPath, Distinct, BehindCovered, Acyclic;
  }

  lemma YieldedAreReplays(nodes: seq<Trace>, exit: nat, made: seq<Visit>)
    requires forall i :: 0 <= i < |made| ==> made[i].id < |nodes|
    requires Distinct(made) && forall v :: v in made ==> OnPath(nodes, exit, v)
    ensures Distinct(ReplaysOf(nodes, made)) && forall r :: r in ReplaysOf(nodes, made) ==> IsReplay(nodes, exit, r)
  {
    ReplaysDistinct(nodes, made);
    hide OnPath, IsReplay, ReplaysOf, Distinct;
    forall r | r in ReplaysOf(nodes, made) ensures IsReplay(nodes, exit, r) {
      ReplaysMembers(nodes, made, r);
      ReplayIsVisit(nodes, exit, r);
    }
  }

  // The visits that the budget still allows.
  function Left(limit: nat, visits: nat): nat {
    if visits < 8 * limit then 8 * limit - visits else 0
  }

  ghost function WholeWalk(c: Collector, exit: nat): (seq<Visit>, bool) {
    Walk(c.nodes, [], [Visit(exit, [])], Left(c.limit, c.visits))
  }

  lemma MadeIsSeen(nodes: seq<Trace>, exit: nat, made: seq<Visit>, seen: set<Visit>, pending: seq<Visit>, v: Visit)
    requires Walking(nodes, exit, made, seen, pending)
    ensures v in made <==> v in seen
  {
    hide OnPath, Distinct, BehindCovered, Acyclic;
  }

  /** The walk under way: what was made so far was within the budget and is handed out. */
  ghost predicate Underway(
    c: Collector, exit: nat, visits: nat, replays: seq<Replay>, made: seq<Visit>, seen: set<Visit>, pending: seq<Visit>)
  {
    && Sound(c) && exit < |c.nodes|
    && Walking(c.nodes, exit, made, seen, pending)
    && Budgeted(c.limit, c.visits, visits, made)
    && (forall i :: 0 <= i < |made| ==> made[i].id < |c.nodes|)
    && replays == ReplaysOf(c.nodes, made)
    && Walk(c.nodes, made, pending, Left(c.limit, visits)) == WholeWalk(c, exit)
  }

  /** What an inspection hands out: the replays of the visits it made, each on a path
      and made once, in the order of the graph; all there are if it finished, and one
      visit too many was counted if it did not. */
  ghost predicate HandedOut(
    c: Collector, exit: nat, visits: nat, replays: seq<Replay>, finished: bool, made: seq<Visit>)
  {
    && Sound(c) && exit < |c.nodes|
    && Distinct(made) && (forall v :: v in made ==> OnPath(c.nodes, exit, v))
    && visits == c.visits + |made| + (if finished then 0 else 1)
    && (forall i :: 0 <= i < |made| ==> made[i].id < |c.nodes|)
    && replays == ReplaysOf(c.nodes, made)
    && Distinct(replays) && (forall r :: r in replays ==> IsReplay(c.nodes, exit, r))
    && (finished ==> AllReplays(c.nodes, exit, replays))
    && (made, finished) == WholeWalk(c, exit)
    && InOrder(c, exit, replays, finished)
  }

  /** The replays are handed out in the order in which the graph lists them, each where
      it is listed first; a walk cut short hands out a start of them. */
  ghost predicate InOrder(c: Collector, exit: nat, replays: seq<Replay>, finished: bool)
    requires Sound(c) && exit < |c.nodes|
  {
    var all := AppendNew([], Replays(c.nodes, exit));
    replays <= all && (finished ==> replays == all)
  }

  lemma WalkIsInOrder(c: Collector, exit: nat, made: seq<Visit>, finished: bool)
    requires Sound(c) && exit < |c.nodes| && (made, finished) == WholeWalk(c, exit)
    requires forall i :: 0 <= i < |made| ==> made[i].id < |c.nodes|
    ensures InOrder(c, exit, ReplaysOf(c.nodes, made), finished)
  {
    hide Acyclic, Walk, ReplaysOf, AppendNew, Replays;
    WalkReplays(c.nodes, exit, Left(c.limit, c.visits));
  }

  lemma StartUnderway(c: Collector, exit: nat)
    requires Sound(c) && exit < |c.nodes|
    ensures Underway(c, exit, c.visits, [], [], {}, [Visit(exit, [])])
  {
    hide Walking;
    StartWalking(c.nodes, exit);
  }

  lemma SkipStep(
      c: Collector, exit: nat, visits: nat, replays: seq<Replay>, made: seq<Visit>, seen: set<Visit>,
      pending: seq<Visit>)
    requires Underway(c, exit, visits, replays, made, seen, pending)
    requires pending != [] && pending[|pending| - 1] in seen
    ensures Underway(c, exit, visits, replays, made, seen, pending[..|pending| - 1])
  {
    hide Walking, ReplaysOf, Walk;
    SkipSeen(c.nodes, exit, made, seen, pending);
    MadeIsSeen(c.nodes, exit, made, seen, pending, pending[|pending| - 1]);
    WalkSkips(c.nodes, made, pending, Left(c.limit, visits));
  }

  lemma PendingBounds(
      c: Collector, exit: nat, visits: nat, replays: seq<Replay>, made: seq<Visit>, seen: set<Visit>,
      pending: seq<Visit>)
    requires Underway(c, exit, visits, replays, made, seen, pending) && pending != []
    ensures pending[|pending| - 1].id < |c.nodes|
  {
    hide Walking, ReplaysOf, Walk;
    WalkBounds(c.nodes, exit, made, seen, pending);
  }

  lemma VisitStep(
      c: Collector, exit: nat, visits: nat, replays: seq<Replay>, made: seq<Visit>, seen: set<Visit>,
      pending: seq<Visit>,
      v: Visit)
    requires Underway(c, exit, visits, replays, made, seen, pending)
    requires pending != [] && v == pending[|pending| - 1] && v !in seen && v.id < |c.nodes|
    requires visits + 1 <= 8 * c.limit
    ensures Underway(c, exit, visits + 1,
                     if c.nodes[v.id].checkpoint.Some? then replays + [Replay(v.id, Own(c.nodes, v.id) + v.later)]
                     else replays,
                     made + [v], seen + {v}, pending[..|pending| - 1] + Back(c.nodes, v))
  {
    hide Walking, ReplaysOf, Back, Own, Walk;
    MadeIsSeen(c.nodes, exit, made, seen, pending, v);
    WalkVisits(c.nodes, made, pending, Left(c.limit, visits), v);
    VisitNext(c.nodes, exit, made, seen, pending, v);
    OneReplay(c.nodes, made, v);
  }

  lemma OverStep(
      c: Collector, exit: nat, visits: nat, replays: seq<Replay>, made: seq<Visit>, seen: set<Visit>,
      pending: seq<Visit>,
      v: Visit)
    requires Underway(c, exit, visits, replays, made, seen, pending)
    requires pending != [] && v == pending[|pending| - 1] && v !in seen && visits + 1 > 8 * c.limit
    ensures Sound(c) && exit < |c.nodes| && !WithinBudget(c, exit)
    ensures Inspected(c, exit) == c.(visits := visits + 1, truncated := true)
    ensures HandedOut(c, exit, visits + 1, replays, false, made)
  {
    hide Walking, ReplaysOf, Back, OnPath, Distinct, IsReplay, AllReplays, WithinBudget, Inspected, Acyclic, Walk;
    PendingBounds(c, exit, visits, replays, made, seen, pending);
    MadeIsSeen(c.nodes, exit, made, seen, pending, v);
    WalkVisits(c.nodes, made, pending, Left(c.limit, visits), v);
    VisitNext(c.nodes, exit, made, seen, pending, v);
    WalkingMade(c.nodes, exit, made + [v], seen + {v}, pending[..|pending| - 1] + Back(c.nodes, v));
    WalkWentOver(c, exit, visits, made, v);
    MadeSoFar(c.nodes, exit, made, v);
    YieldedAreReplays(c.nodes, exit, made);
    hide InOrder;
    WalkIsInOrder(c, exit, made, false);
  }

  lemma WalkDone(
      c: Collector, exit: nat, visits: nat, replays: seq<Replay>, made: seq<Visit>, seen: set<Visit>)
    requires Underway(c, exit, visits, replays, made, seen, [])
    ensures Sound(c) && exit < |c.nodes| && WithinBudget(c, exit)
    ensures Inspected(c, exit) == c.(visits := visits)
    ensures HandedOut(c, exit, visits, replays, true, made)
  {
    hide Walking, ReplaysOf, OnPath, Distinct, IsReplay, AllReplays, WithinBudget, Inspected, Acyclic, Walk;
    WalkStops(c.nodes, made, Left(c.limit, visits));
    WalkingMade(c.nodes, exit, made, seen, []);
    WalkEnds(c.nodes, exit, made, seen);
    WalkWasWithin(c, exit, visits, made);
    YieldedAreReplays(c.nodes, exit, made);
    ReplaysAreExact(c.nodes, exit, made);
    hide InOrder;
    WalkIsInOrder(c, exit, made, true);
  }

  lemma MadeSoFar(nodes: seq<Trace>, exit: nat, made: seq<Visit>, v: Visit)
    requires Distinct(made + [v]) && forall w :: w in made + [v] ==> OnPath(nodes, exit, w)
    ensures Distinct(made) && forall w :: w in made ==> OnPath(nodes, exit, w)
  {
    DistinctSplit(made, [v]);
    hide OnPath, Distinct;
    assert forall w :: w in made ==> w in made + [v];
  }

  class TraceCollector {
    const limit: nat
    var nodes: seq<Trace>
    var truncated: bool
    var functions: seq<Published>
    var visits: nat

    ghost function Now(): Collector
      reads this
    {
      Collector(limit, nodes, truncated, functions, visits)
    }

    constructor (limit: nat)
      ensures Now() == Empty(limit)
    {
      this.limit := limit;
      nodes, truncated, functions, visits := [], false, [], 0;
    }

    method Add(parents: seq<nat>, checkpoint: Option<string>, refinement: Option<Refinement>)
      returns (trace: Option<nat>)
      modifies this
      ensures (Now(), trace) == Allocate(old(Now()), Trace(parents, checkpoint, refinement))
    {
      if |nodes| >= limit {
        truncated, functions := true, [];
        return None;
      }
      nodes := nodes + [Trace(parents, checkpoint, refinement)];
      return Some(|nodes| - 1);
    }

    method Refine(trace: nat, refinement: Refinement) returns (refined: Option<nat>)
      modifies this
      ensures (Now(), refined) == Allocate(old(Now()), Trace([trace], None, Some(refinement)))
    {
      refined := Add([trace], None, Some(refinement));
    }

    method JoinTraces(traces: seq<Option<nat>>) returns (joined: Option<nat>)
      modifies this
      ensures (Now(), joined) == Join(old(Now()), traces)
    {
      var parents: seq<nat> := [];
      assert traces[..0] == [];
      for k := 0 to |traces|
        invariant parents == Present(traces[..k])
      {
        assert traces[..k + 1][..k] == traces[..k];
        if traces[k].Some? && traces[k].value !in parents {
          parents := parents + [traces[k].value];
        }
      }
      assert traces[..|traces|] == traces;
      if |parents| == 0 {
        return None;
      }
      if |parents| == 1 {
        return Some(parents[0]);
      }
      joined := Add(parents, None, None);
    }

    // Publish exits unless collection has been cut short.
    method FinishFunction(node: string, exits: seq<nat>)
      modifies `functions
      ensures Now() == Finish(old(Now()), node, exits)
    {
      if !truncated {
        functions := functions + [Published(node, exits)];
      }
    }

    // The checkpoints behind an exit, each with the refinements made since. The walk
    // finishes exactly when the budget covers every visit; otherwise what was handed
    // out comes from the visits the budget still covered. The order is that of the graph.
    method Checkpoints(exit: Option<nat>)
      returns (replays: seq<Replay>, finished: bool, ghost made: seq<Visit>)
      requires Sound(Now()) && (exit.Some? ==> exit.value < |nodes|)
      modifies `visits, `truncated
      ensures exit.None? ==> finished && replays == [] && Now() == old(Now())
      ensures exit.Some? ==>
        && Now() == Inspected(old(Now()), exit.value)
        && (finished <==> WithinBudget(old(Now()), exit.value))
        && HandedOut(old(Now()), exit.value, visits, replays, finished, made)
    {
      hide Sound, WithinBudget, Inspected, HandedOut, Underway, Back, Own;
      replays, finished, made := [], true, [];
      if exit.None? {
        return;
      }
      ghost var before := Now();
      var seen: set<Visit> := {};
      var pending := [Visit(exit.value, [])];
      StartUnderway(before, exit.value);
      while pending != []
        invariant Now() == before.(visits := visits)
        invariant Underway(before, exit.value, visits, replays, made, seen, pending)
        decreases if visits <= 8 * limit then 8 * limit + 1 - visits else 0, |pending|
      {
        var current := pending[|pending| - 1];
        var rest := pending[..|pending| - 1];
        if current in seen {
          SkipStep(before, exit.value, visits, replays, made, seen, pending);
          pending := rest;
          continue;
        }
        PendingBounds(before, exit.value, visits, replays, made, seen, pending);
        if visits + 1 > 8 * limit {
          OverStep(before, exit.value, visits, replays, made, seen, pending, current);
        } else {
          VisitStep(before, exit.value, visits, replays, made, seen, pending, current);
          made := made + [current];
        }
        seen := seen + {current};
        visits := visits + 1;
        if visits > 8 * limit {
          truncated := true;
          finished := false;
          return;
        }
        var refinements := Own(nodes, current.id) + current.later;
        if nodes[current.id].checkpoint.Some? {
          replays := replays + [Replay(current.id, refinements)];
        }
        pending := rest + Back(nodes, current);
      }
      WalkDone(before, exit.value, visits, replays, made, seen);
    }
  }

  /* Runs of one request. */

  datatype Operation =
    | AddNode(trace: Trace)
    | JoinNodes(traces: seq<Option<nat>>)
    | FinishNode(node: string, exits: seq<nat>)
    | Inspect(exit: Option<nat>)

  // The traces an operation is handed exist.
  predicate Possible(c: Collector, op: Operation) {
    match op
    case AddNode(trace) => forall p :: p in trace.parents ==> p < |c.nodes|
    case JoinNodes(traces) => forall t :: t in traces && t.Some? ==> t.value < |c.nodes|
    case FinishNode(_, _) => true
    case Inspect(exit) => exit.Some? ==> exit.value < |c.nodes|
  }

  ghost function Next(c: Collector, op: Operation): Collector
    requires Sound(c) && Possible(c, op)
  {
    match op
    case AddNode(trace) => Allocate(c, trace).0
    case JoinNodes(traces) => Join(c, traces).0
    case FinishNode(node, exits) => Finish(c, node, exits)
    case Inspect(exit) => if exit.Some? then Inspected(c, exit.value) else c
  }

  // The operation has to allocate a node and there is no room for it.
  ghost predicate Refuses(c: Collector, op: Operation) {
    && |c.nodes| >= c.limit
    && (op.AddNode? || (op.JoinNodes? && |Present(op.traces)| >= 2))
  }

  ghost predicate RunsOver(c: Collector, op: Operation)
    requires Sound(c) && Possible(c, op)
  {
    op.Inspect? && op.exit.Some? && !WithinBudget(c, op.exit.value)
  }

  lemma NextIsSound(c: Collector, op: Operation)
    requires Sound(c) && Possible(c, op)
    ensures Sound(Next(c, op)) && c.nodes <= Next(c, op).nodes && Next(c, op).limit == c.limit
    ensures |Next(c, op).nodes| <= |c.nodes| + 1
  {
    hide Present, PathVisits, Acyclic;
    match op
    case AddNode(trace) => AllocateIsSound(c, trace);
    case JoinNodes(traces) =>
      var parents := Present(traces);
      PresentOnce(traces);
      forall p | p in parents ensures p < |c.nodes| {
        assert Some(p) in traces;
      }
      AllocateIsSound(c, Trace(parents, None, None));
    case FinishNode(_, _) =>
    case Inspect(_) =>
  }

  lemma AllocateIsSound(c: Collector, trace: Trace)
    requires Sound(c) && forall p :: p in trace.parents ==> p < |c.nodes|
    ensures Sound(Allocate(c, trace).0)
  {
    assert forall k :: 0 <= k < |trace.parents| ==> trace.parents[k] in trace.parents;
  }

  // What one operation does to the record of the request.
  lemma NextRecord(c: Collector, op: Operation)
    requires Sound(c) && Possible(c, op)
    ensures Next(c, op).truncated <==> c.truncated || Refuses(c, op) || RunsOver(c, op)
    ensures Next(c, op).functions ==
      if Refuses(c, op) then []
      else c.functions + if op.FinishNode? && !c.truncated then [Published(op.node, op.exits)] else []
  {
    hide Present, PathVisits, Acyclic;
  }

  // A possible run of operations from an empty collector, and where it ends.
  ghost function Play(limit: nat, ops: seq<Operation>): (c: Option<Collector>)
    ensures c.Some? ==> Sound(c.value) && c.value.limit == limit
  {
    if ops == [] then Some(Empty(limit))
    else
      var before := Play(limit, ops[..|ops| - 1]);
      var op := ops[|ops| - 1];
      if before.Some? && Possible(before.value, op) then
        NextIsSound(before.value, op);
        Some(Next(before.value, op))
      else None
  }

  // Some allocation of the run was refused.
  ghost predicate Exhausted(limit: nat, ops: seq<Operation>)
    requires Play(limit, ops).Some?
  {
    ops != [] &&
      (Exhausted(limit, ops[..|ops| - 1]) || Refuses(Play(limit, ops[..|ops| - 1]).value, ops[|ops| - 1]))
  }

  // Some inspection of the run went past the budget.
  ghost predicate Overrun(limit: nat, ops: seq<Operation>)
    requires Play(limit, ops).Some?
  {
    ops != [] &&
      (Overrun(limit, ops[..|ops| - 1]) || RunsOver(Play(limit, ops[..|ops| - 1]).value, ops[|ops| - 1]))
  }

  // The functions finished before anything was refused or went over.
  ghost function Publications(limit: nat, ops: seq<Operation>): seq<Published>
    requires Play(limit, ops).Some?
  {
    if ops == [] then []
    else
      var front, op := ops[..|ops| - 1], ops[|ops| - 1];
      Publications(limit, front)
      + if op.FinishNode? && !Exhausted(limit, front) && !Overrun(limit, front)
        then [Published(op.node, op.exits)] else []
  }

  // In every run: the collector is truncated exactly when an allocation was refused or
  // an inspection went over, and what is published is everything finished before that,
  // or nothing at all as soon as an allocation was refused.
  lemma {:induction false} PublishedExactly(limit: nat, ops: seq<Operation>)
    requires Play(limit, ops).Some?
    ensures
      var c := Play(limit, ops).value;
      && (c.truncated <==> Exhausted(limit, ops) || Overrun(limit, ops))
      && c.functions == if Exhausted(limit, ops) then [] else Publications(limit, ops)
  {
    if ops != [] {
      var front, op := ops[..|ops| - 1], ops[|ops| - 1];
      var before := Play(limit, front).value;
      PublishedExactly(limit, front);
      NextRecord(before, op);
      hide Next, Refuses, RunsOver, Sound, Possible;
    }
  }

  lemma {:induction false} ExhaustionStays(limit: nat, ops: seq<Operation>, k: nat)
    requires k <= |ops| && Play(limit, ops).Some?
    ensures Play(limit, ops[..k]).Some?
    ensures Exhausted(limit, ops[..k]) ==> Exhausted(limit, ops)
    decreases |ops|
  {
    if k == |ops| {
      assert ops[..k] == ops;
    } else {
      hide Next, Refuses, RunsOver, Sound, Possible;
      assert ops[..|ops| - 1][..k] == ops[..k];
      ExhaustionStays(limit, ops[..|ops| - 1], k);
    }
  }

  // Once an allocation has been refused, nothing is ever published again, whatever
  // operations follow.
  lemma NothingPublishedAfterRefusal(limit: nat, ops: seq<Operation>, k: nat)
    requires k < |ops| && Play(limit, ops).Some?
    ensures Play(limit, ops[..k]).Some?
    ensures Refuses(Play(limit, ops[..k]).value, ops[k]) ==>
      Play(limit, ops).value.functions == [] && Play(limit, ops).value.truncated
  {
    ExhaustionStays(limit, ops, k);
    ExhaustionStays(limit, ops, k + 1);
    assert ops[..k + 1][..k] == ops[..k];
    PublishedExactly(limit, ops);
    hide Play, Refuses;
  }

  // The graph of every run is acyclic, within the limit, and only ever grows.
  lemma {:induction false} GraphOnlyGrows(limit: nat, ops: seq<Operation>, k: nat)
    requires k <= |ops| && Play(limit, ops).Some?
    ensures Play(limit, ops[..k]).Some?
    ensures Play(limit, ops[..k]).value.nodes <= Play(limit, ops).value.nodes
    ensures Acyclic(Play(limit, ops).value.nodes) && |Play(limit, ops).value.nodes| <= limit
    decreases |ops|
  {
    if k == |ops| {
      assert ops[..k] == ops;
    } else {
      var front := ops[..|ops| - 1];
      assert front[..k] == ops[..k];
      GraphOnlyGrows(limit, front, k);
      NextIsSound(Play(limit, front).value, ops[|ops| - 1]);
    }
  }
}
