/** The worklist of the explorer. */
module ScheduleExplorer {
  import opened Options
  import opened Sequences
  import opened ScheduleMachine
  import opened ScheduleTree

  datatype Report = Report(
    tasks: nat,
    cancellationAt: Option<nat>,
    schedules: nat,
    exploredPrefixes: nat,
    finalValues: set<int>)

  datatype Result = Done(report: Report) | BadTasks | BadCancellation | BadLimit | BoundExceeded

  // The complete schedules in a list of prefixes.
  ghost function CompleteOf(tasks: nat, cancelAt: Option<nat>, list: seq<seq<nat>>): seq<seq<nat>> {
    if list == [] then []
    else
      CompleteOf(tasks, cancelAt, list[..|list| - 1])
      + if Complete(tasks, cancelAt, list[|list| - 1]) then [list[|list| - 1]] else []
  }

  lemma {:induction false} CompleteOfConcat(tasks: nat, cancelAt: Option<nat>, a: seq<seq<nat>>, b: seq<seq<nat>>)
    ensures CompleteOf(tasks, cancelAt, a + b) == CompleteOf(tasks, cancelAt, a) + CompleteOf(tasks, cancelAt, b)
  {
    if b == [] {
      assert a + b == a;
    } else {
      assert (a + b)[..|a + b| - 1] == a + b[..|b| - 1];
      CompleteOfConcat(tasks, cancelAt, a, b[..|b| - 1]);
    }
  }

  lemma {:induction false} CompleteOfMembers(tasks: nat, cancelAt: Option<nat>, list: seq<seq<nat>>)
    ensures forall p :: p in CompleteOf(tasks, cancelAt, list) <==> p in list && Complete(tasks, cancelAt, p)
  {
    if list != [] {
      assert list == list[..|list| - 1] + [list[|list| - 1]];
      CompleteOfMembers(tasks, cancelAt, list[..|list| - 1]);
      hide Complete;
    }
  }

  ghost predicate AllFeasible(tasks: nat, cancelAt: Option<nat>, frontier: seq<seq<nat>>) {
    forall k :: 0 <= k < |frontier| ==> Feasible(tasks, cancelAt, frontier[k])
  }

  // What is still to be popped: the frontier is a stack.
  ghost function Pending(tasks: nat, cancelAt: Option<nat>, frontier: seq<seq<nat>>): seq<seq<nat>>
    requires AllFeasible(tasks, cancelAt, frontier)
  {
    if frontier == [] then []
    else
      Visit(tasks, cancelAt, frontier[|frontier| - 1]) + Pending(tasks, cancelAt, frontier[..|frontier| - 1])
  }

  lemma PendingPush(tasks: nat, cancelAt: Option<nat>, frontier: seq<seq<nat>>, p: seq<nat>)
    requires AllFeasible(tasks, cancelAt, frontier) && Feasible(tasks, cancelAt, p)
    ensures AllFeasible(tasks, cancelAt, frontier + [p])
    ensures Pending(tasks, cancelAt, frontier + [p]) == Visit(tasks, cancelAt, p) + Pending(tasks, cancelAt, frontier)
  {
    hide Feasible, Visit;
    assert (frontier + [p])[..|frontier|] == frontier;
  }

  // Pushing the children of a prefix, the last one first.
  method PushChoices(
      tasks: nat, cancelAt: Option<nat>, frontier: seq<seq<nat>>, prefix: seq<nat>, ready: seq<nat>)
    returns (extended: seq<seq<nat>>)
    requires AllFeasible(tasks, cancelAt, frontier)
    requires AllReady(tasks, cancelAt, prefix, ready)
    ensures AllFeasible(tasks, cancelAt, extended)
    ensures Pending(tasks, cancelAt, extended) ==
      VisitAll(tasks, cancelAt, prefix, ready) + Pending(tasks, cancelAt, frontier)
  {
    extended := frontier;
    ghost var below := Pending(tasks, cancelAt, frontier);
    ghost var tail: seq<nat> := [];
    var k := |ready|;
    NoChoices(tasks, cancelAt, prefix, ready, below);
    hide Visit, VisitAll, Pending, AllReady, AllFeasible, Feasible;
    while k > 0
      invariant 0 <= k <= |ready|
      invariant AllFeasible(tasks, cancelAt, extended)
      invariant k + |tail| == |ready| && ready[..k] + tail == ready
      invariant AllReady(tasks, cancelAt, prefix, tail)
      invariant Pending(tasks, cancelAt, extended) == VisitAll(tasks, cancelAt, prefix, tail) + below
    {
      k := k - 1;
      var child := prefix + [ready[k]];
      ghost var rest := tail;
      ShiftSplit(ready, k, rest);
      tail := [ready[k]] + rest;
      OneMoreChoice(tasks, cancelAt, extended, prefix, ready, k, rest, child);
      Associative(Visit(tasks, cancelAt, child), VisitAll(tasks, cancelAt, prefix, rest), below);
      extended := extended + [child];
    }
    assert ready[..0] + tail == tail;
  }

  lemma ShiftSplit(q: seq<nat>, k: nat, tail: seq<nat>)
    requires k < |q| && q[..k + 1] + tail == q
    ensures q[..k] + ([q[k]] + tail) == q
  {
    assert q[..k + 1] == q[..k] + [q[k]];
  }

  lemma NoChoices(tasks: nat, cancelAt: Option<nat>, prefix: seq<nat>, ready: seq<nat>, below: seq<seq<nat>>)
    requires AllReady(tasks, cancelAt, prefix, ready)
    ensures AllReady(tasks, cancelAt, prefix, []) && below == VisitAll(tasks, cancelAt, prefix, []) + below
    ensures ready[..|ready|] + [] == ready
  {
  }

  lemma Associative<T>(a: seq<T>, b: seq<T>, c: seq<T>)
    ensures a + b + c == a + (b + c)
  {
  }

  lemma OneMoreChoice(
      tasks: nat, cancelAt: Option<nat>, frontier: seq<seq<nat>>, prefix: seq<nat>, ready: seq<nat>, k: nat,
      rest: seq<nat>, child: seq<nat>)
    requires AllFeasible(tasks, cancelAt, frontier)
    requires AllReady(tasks, cancelAt, prefix, ready) && k < |ready|
    requires AllReady(tasks, cancelAt, prefix, rest) && |rest| < |ready|
    requires child == prefix + [ready[k]]
    ensures AllReady(tasks, cancelAt, prefix, [ready[k]] + rest)
    ensures Feasible(tasks, cancelAt, child)
    ensures AllFeasible(tasks, cancelAt, frontier + [child])
    ensures VisitAll(tasks, cancelAt, prefix, [ready[k]] + rest) ==
      Visit(tasks, cancelAt, child) + VisitAll(tasks, cancelAt, prefix, rest)
    ensures Pending(tasks, cancelAt, frontier + [child]) ==
      Visit(tasks, cancelAt, child) + Pending(tasks, cancelAt, frontier)
  {
    ChildFeasible(tasks, cancelAt, prefix, ready[k]);
    assert ([ready[k]] + rest)[1..] == rest;
    PendingPush(tasks, cancelAt, frontier, child);
  }

  lemma RootFeasible(tasks: nat, cancelAt: Option<nat>)
    ensures Feasible(tasks, cancelAt, [])
    ensures AllFeasible(tasks, cancelAt, [[]])
    ensures Pending(tasks, cancelAt, [[]]) == Visit(tasks, cancelAt, [])
  {
    var frontier: seq<seq<nat>> := [[]];
    assert frontier[..0] == [] && frontier[0] == [];
    assert Pending(tasks, cancelAt, frontier) == Visit(tasks, cancelAt, []) + Pending(tasks, cancelAt, []);
  }

  lemma PopOne(tasks: nat, cancelAt: Option<nat>, frontier: seq<seq<nat>>)
    requires AllFeasible(tasks, cancelAt, frontier) && frontier != []
    ensures
      var prefix, rest := frontier[|frontier| - 1], frontier[..|frontier| - 1];
      && Feasible(tasks, cancelAt, prefix) && AllFeasible(tasks, cancelAt, rest)
      && AllReady(tasks, cancelAt, prefix, ReadyTasks(Play(tasks, cancelAt, prefix).value))
      && Pending(tasks, cancelAt, frontier) ==
           [prefix]
           + (VisitAll(tasks, cancelAt, prefix, ReadyTasks(Play(tasks, cancelAt, prefix).value))
              + Pending(tasks, cancelAt, rest))
  {
    var prefix := frontier[|frontier| - 1];
    ReadyTasksAllReady(tasks, cancelAt, prefix);
    hide Feasible, Play;
  }

  // A prefix without ready tasks is a complete schedule.
  lemma NothingReady(tasks: nat, cancelAt: Option<nat>, prefix: seq<nat>)
    requires Feasible(tasks, cancelAt, prefix)
    ensures ReadyTasks(Play(tasks, cancelAt, prefix).value) == [] <==> Complete(tasks, cancelAt, prefix)
  {
    var w := Play(tasks, cancelAt, prefix).value;
    if ReadyTasks(w) == [] {
      forall i: nat | i < tasks ensures w.phase[i] == 3 {
        assert i !in ReadyTasks(w);
      }
    } else {
      assert ReadyTasks(w)[0] in ReadyTasks(w);
    }
  }

  ghost predicate Outcomes(tasks: nat, cancelAt: Option<nat>, popped: seq<seq<nat>>, outcomes: set<int>) {
    forall v :: v in outcomes <==>
      exists p :: p in CompleteOf(tasks, cancelAt, popped) && Ends(tasks, cancelAt, p, v)
  }

  // The schedule `p` ends with the counter at `v`.
  ghost predicate Ends(tasks: nat, cancelAt: Option<nat>, p: seq<nat>, v: int) {
    Feasible(tasks, cancelAt, p) && Play(tasks, cancelAt, p).value.value == v
  }

  lemma TallyOne(tasks: nat, cancelAt: Option<nat>, popped: seq<seq<nat>>, p: seq<nat>, outcomes: set<int>)
    requires Feasible(tasks, cancelAt, p)
    requires Outcomes(tasks, cancelAt, popped, outcomes)
    ensures
      var list := CompleteOf(tasks, cancelAt, popped + [p]);
      var v := Play(tasks, cancelAt, p).value.value;
      if Complete(tasks, cancelAt, p)
      then list == CompleteOf(tasks, cancelAt, popped) + [p] && Outcomes(tasks, cancelAt, popped + [p], outcomes + {v})
      else list == CompleteOf(tasks, cancelAt, popped) && Outcomes(tasks, cancelAt, popped + [p], outcomes)
  {
    assert (popped + [p])[..|popped|] == popped;
    var old', new' := CompleteOf(tasks, cancelAt, popped), CompleteOf(tasks, cancelAt, popped + [p]);
    var v := Play(tasks, cancelAt, p).value.value;
    assert Ends(tasks, cancelAt, p, v);
    if Complete(tasks, cancelAt, p) {
      assert new' == old' + [p];
      hide CompleteOf, Play, Complete, Feasible;
      forall u ensures u in outcomes + {v} <==> exists q :: q in new' && Ends(tasks, cancelAt, q, u) {
        assert p in new';
        if u in outcomes {
          var q :| q in old' && Ends(tasks, cancelAt, q, u);
          assert q in new';
        }
      }
    } else {
      assert new' == old' + [];
    }
  }

  /** The loop invariant: what has been popped, followed by what the frontier still
      holds, is the whole depth-first listing; the counters describe what was popped. */
  ghost predicate Exploring(
    tasks: nat, cancelAt: Option<nat>, frontier: seq<seq<nat>>, popped: seq<seq<nat>>, terminals: nat,
    outcomes: set<int>)
  {
    && Feasible(tasks, cancelAt, [])
    && AllFeasible(tasks, cancelAt, frontier)
    && popped + Pending(tasks, cancelAt, frontier) == Visit(tasks, cancelAt, [])
    && terminals == |CompleteOf(tasks, cancelAt, popped)|
    && Outcomes(tasks, cancelAt, popped, outcomes)
  }

  lemma StartExploring(tasks: nat, cancelAt: Option<nat>)
    ensures Exploring(tasks, cancelAt, [[]], [], 0, {})
  {
    RootFeasible(tasks, cancelAt);
    hide Feasible, Visit, Pending;
    assert [] + Pending(tasks, cancelAt, [[]]) == Visit(tasks, cancelAt, []);
  }

  lemma ReplaceTop(
      tasks: nat, cancelAt: Option<nat>, frontier: seq<seq<nat>>, prefix: seq<nat>, ready: seq<nat>,
      extended: seq<seq<nat>>)
    requires AllFeasible(tasks, cancelAt, frontier) && frontier != [] && prefix == frontier[|frontier| - 1]
    requires AllFeasible(tasks, cancelAt, frontier[..|frontier| - 1]) && AllFeasible(tasks, cancelAt, extended)
    requires Feasible(tasks, cancelAt, prefix) && ready == ReadyTasks(Play(tasks, cancelAt, prefix).value)
    requires AllReady(tasks, cancelAt, prefix, ready)
    requires Pending(tasks, cancelAt, extended) ==
      VisitAll(tasks, cancelAt, prefix, ready) + Pending(tasks, cancelAt, frontier[..|frontier| - 1])
    ensures Pending(tasks, cancelAt, frontier) == [prefix] + Pending(tasks, cancelAt, extended)
  {
    hide Visit, VisitAll, Pending, AllReady, AllFeasible, ReadyTasks, Play, Feasible;
    PopOne(tasks, cancelAt, frontier);
  }

  lemma ExploreOne(
      tasks: nat, cancelAt: Option<nat>, frontier: seq<seq<nat>>, popped: seq<seq<nat>>, terminals: nat,
      outcomes: set<int>, prefix: seq<nat>, w: World, extended: seq<seq<nat>>)
    requires Exploring(tasks, cancelAt, frontier, popped, terminals, outcomes)
    requires Play(tasks, cancelAt, prefix) == Some(w)
    requires AllFeasible(tasks, cancelAt, extended)
    requires Pending(tasks, cancelAt, frontier) == [prefix] + Pending(tasks, cancelAt, extended)
    ensures
      if ReadyTasks(w) == []
      then Exploring(tasks, cancelAt, extended, popped + [prefix], terminals + 1, outcomes + {w.value})
      else Exploring(tasks, cancelAt, extended, popped + [prefix], terminals, outcomes)
    ensures |Pending(tasks, cancelAt, extended)| < |Pending(tasks, cancelAt, frontier)|
  {
    hide Pending, Visit, VisitAll, AllReady, AllFeasible, ReadyTasks, CompleteOf, Outcomes, Complete, Play;
    NothingReady(tasks, cancelAt, prefix);
    TallyOne(tasks, cancelAt, popped, prefix, outcomes);
    Associative(popped, [prefix], Pending(tasks, cancelAt, extended));
  }

  // When the frontier runs empty everything has been popped; meanwhile the count
  // can only grow.
  lemma ExploringBounds(
      tasks: nat, cancelAt: Option<nat>, frontier: seq<seq<nat>>, popped: seq<seq<nat>>, terminals: nat,
      outcomes: set<int>)
    requires Exploring(tasks, cancelAt, frontier, popped, terminals, outcomes)
    ensures terminals <= |CompleteOf(tasks, cancelAt, Visit(tasks, cancelAt, []))|
    ensures frontier == [] ==> popped == Visit(tasks, cancelAt, [])
  {
    CompleteOfConcat(tasks, cancelAt, popped, Pending(tasks, cancelAt, frontier));
    assert frontier == [] ==> popped + Pending(tasks, cancelAt, frontier) == popped;
  }

  /** The exploration for any number of tasks. It reports the complete tree of
      schedules or, past the bound, nothing at all. */
  method Explore(tasks: nat, cancelAt: Option<nat>, maxSchedules: nat)
    returns (result: Result, ghost popped: seq<seq<nat>>)
    ensures Feasible(tasks, cancelAt, [])
    ensures result.Done? || result.BoundExceeded?
    ensures result.BoundExceeded? <==> |CompleteOf(tasks, cancelAt, Visit(tasks, cancelAt, []))| > maxSchedules
    ensures result.Done? ==>
      && popped == Visit(tasks, cancelAt, [])
      && result.report.tasks == tasks && result.report.cancellationAt == cancelAt
      && result.report.exploredPrefixes == |popped|
      && result.report.schedules == |CompleteOf(tasks, cancelAt, popped)|
      && Outcomes(tasks, cancelAt, popped, result.report.finalValues)
  {
    var frontier: seq<seq<nat>> := [[]];
    var terminals, explored := 0, 0;
    var outcomes: set<int> := {};
    popped := [];
    RootFeasible(tasks, cancelAt);
    StartExploring(tasks, cancelAt);
    ghost var fuel := |Pending(tasks, cancelAt, frontier)|;
    hide Play, Pending, Visit, VisitAll, AllReady, AllFeasible, ReadyTasks, CompleteOf, Outcomes, Complete;
    while frontier != []
      invariant Exploring(tasks, cancelAt, frontier, popped, terminals, outcomes)
      invariant explored == |popped| && terminals <= maxSchedules
      invariant AllFeasible(tasks, cancelAt, frontier) && fuel == |Pending(tasks, cancelAt, frontier)|
      decreases fuel
    {
      var prefix, rest := frontier[|frontier| - 1], frontier[..|frontier| - 1];
      PopOne(tasks, cancelAt, frontier);
      explored := explored + 1;
      var outcome := Replay(tasks, cancelAt, prefix);
      var w := outcome.value;
      var ready := ReadyTasks(w);
      var extended := PushChoices(tasks, cancelAt, rest, prefix, ready);
      ReplaceTop(tasks, cancelAt, frontier, prefix, ready, extended);
      ExploreOne(tasks, cancelAt, frontier, popped, terminals, outcomes, prefix, w, extended);
      popped := popped + [prefix];
      frontier := extended;
      if ready == [] {
        terminals := terminals + 1;
        outcomes := outcomes + {w.value};
        ExploringBounds(tasks, cancelAt, frontier, popped, terminals, outcomes);
        if terminals > maxSchedules {
          return BoundExceeded, popped;
        }
      }
      fuel := |Pending(tasks, cancelAt, frontier)|;
    }
    ExploringBounds(tasks, cancelAt, frontier, popped, terminals, outcomes);
    result := Done(Report(tasks, cancelAt, terminals, explored, outcomes));
  }

  // The entry point with its argument checks: between one and four tasks, a
  // cancellation step that is not negative, a positive bound.
  method ExploreSchedules(tasks: int, cancellationAt: Option<int>, maxSchedules: int) returns (result: Result)
    ensures result.BadTasks? <==> !(1 <= tasks <= 4)
    ensures result.BadCancellation? <==>
      1 <= tasks <= 4 && cancellationAt.Some? && cancellationAt.value < 0
    ensures result.BadLimit? <==>
      1 <= tasks <= 4 && !(cancellationAt.Some? && cancellationAt.value < 0) && maxSchedules < 1
    ensures result.Done? || result.BoundExceeded? ==>
      var cancelAt := if cancellationAt.Some? then Some(cancellationAt.value) else None;
      && Feasible(tasks, cancelAt, [])
      && (result.BoundExceeded? <==> |CompleteOf(tasks, cancelAt, Visit(tasks, cancelAt, []))| > maxSchedules)
    ensures result.Done? ==>
      var cancelAt := if cancellationAt.Some? then Some(cancellationAt.value) else None;
      && result.report.tasks == tasks && result.report.cancellationAt == cancelAt
      && result.report.exploredPrefixes == |Visit(tasks, cancelAt, [])|
      && result.report.schedules == |CompleteOf(tasks, cancelAt, Visit(tasks, cancelAt, []))|
      && Outcomes(tasks, cancelAt, Visit(tasks, cancelAt, []), result.report.finalValues)
  {
    if !(1 <= tasks <= 4) {
      return BadTasks;
    }
    if cancellationAt.Some? && cancellationAt.value < 0 {
      return BadCancellation;
    }
    if maxSchedules < 1 {
      return BadLimit;
    }
    var cancelAt: Option<nat> := if cancellationAt.Some? then Some(cancellationAt.value) else None;
    ghost var popped;
    result, popped := Explore(tasks, cancelAt, maxSchedules);
  }

  // The exploration pops each feasible prefix exactly once and nothing else.
  lemma EveryPrefixOnce(tasks: nat, cancelAt: Option<nat>)
    ensures Feasible(tasks, cancelAt, []) && Distinct(Visit(tasks, cancelAt, []))
    ensures forall p :: p in Visit(tasks, cancelAt, []) <==> Feasible(tasks, cancelAt, p)
  {
    RootFeasible(tasks, cancelAt);
    VisitDistinct(tasks, cancelAt, []);
    forall p ensures p in Visit(tasks, cancelAt, []) <==> Feasible(tasks, cancelAt, p) {
      VisitMembers(tasks, cancelAt, [], p);
    }
  }
}
