/** The exhaustive enumeration of schedules: every feasible prefix exactly once. */
module ScheduleTree {
  import opened Options
  import opened Sequences
  import opened ScheduleMachine

  function Sum(q: seq<nat>): nat {
    if q == [] then 0 else Sum(q[..|q| - 1]) + q[|q| - 1]
  }

  lemma {:induction false} SumUpdate(q: seq<nat>, i: nat, v: nat)
    requires i < |q|
    ensures Sum(q[i := v]) + q[i] == Sum(q) + v
  {
    var front, last := q[..|q| - 1], q[|q| - 1];
    if i == |q| - 1 {
      assert q[i := v][..|q| - 1] == front;
    } else {
      assert q[i := v][..|q| - 1] == front[i := v];
      SumUpdate(front, i, v);
    }
  }

  // The number of quanta each task still has to take when nothing is cancelled.
  function Left(w: World): seq<nat> {
    seq(|w.phase|, i requires 0 <= i < |w.phase| => if w.phase[i] <= 3 then 3 - w.phase[i] else 0)
  }

  lemma QuantumUsesBudget(tasks: nat, cancelAt: Option<nat>, w: World, task: nat)
    requires Sized(w, tasks) && Ready(w, task)
    ensures Sum(Left(Quantum(cancelAt, w, task))) < Sum(Left(w))
  {
    var next := Quantum(cancelAt, w, task);
    assert Left(next) == Left(w)[task := Left(next)[task]];
    SumUpdate(Left(w), task, Left(next)[task]);
  }

  ghost function Budget(tasks: nat, cancelAt: Option<nat>, prefix: seq<nat>): nat
    requires Feasible(tasks, cancelAt, prefix)
  {
    Sum(Left(Play(tasks, cancelAt, prefix).value))
  }

  lemma ChildFeasible(tasks: nat, cancelAt: Option<nat>, prefix: seq<nat>, choice: nat)
    requires Feasible(tasks, cancelAt, prefix) && Ready(Play(tasks, cancelAt, prefix).value, choice)
    ensures Feasible(tasks, cancelAt, prefix + [choice])
    ensures Budget(tasks, cancelAt, prefix + [choice]) < Budget(tasks, cancelAt, prefix)
  {
    PlayExtends(tasks, cancelAt, prefix, choice);
    PlayIsSized(tasks, cancelAt, prefix);
    QuantumUsesBudget(tasks, cancelAt, Play(tasks, cancelAt, prefix).value, choice);
  }

  // The ready tasks in increasing order.
  function ReadyBelow(w: World, k: nat): (r: seq<nat>)
    requires k <= |w.phase|
    ensures |r| <= k
    ensures forall i: nat :: i in r <==> i < k && Ready(w, i)
  {
    if k == 0 then []
    else ReadyBelow(w, k - 1) + if Ready(w, k - 1) then [k - 1] else []
  }

  lemma {:induction false} ReadyBelowDistinct(w: World, k: nat)
    requires k <= |w.phase|
    ensures Distinct(ReadyBelow(w, k))
  {
    if k > 0 {
      ReadyBelowDistinct(w, k - 1);
    }
  }

  function ReadyTasks(w: World): seq<nat> {
    ReadyBelow(w, |w.phase|)
  }

  ghost predicate AllReady(tasks: nat, cancelAt: Option<nat>, prefix: seq<nat>, choices: seq<nat>) {
    && Feasible(tasks, cancelAt, prefix)
    && |choices| <= tasks
    && forall t :: t in choices ==> Ready(Play(tasks, cancelAt, prefix).value, t)
  }

  lemma ReadyTasksAllReady(tasks: nat, cancelAt: Option<nat>, prefix: seq<nat>)
    requires Feasible(tasks, cancelAt, prefix)
    ensures AllReady(tasks, cancelAt, prefix, ReadyTasks(Play(tasks, cancelAt, prefix).value))
  {
  }

  // All feasible extensions of a prefix, in the order of a depth-first walk.
  ghost function Visit(tasks: nat, cancelAt: Option<nat>, prefix: seq<nat>): seq<seq<nat>>
    requires Feasible(tasks, cancelAt, prefix)
    decreases Budget(tasks, cancelAt, prefix), tasks + 1
  {
    ReadyTasksAllReady(tasks, cancelAt, prefix);
    [prefix] + VisitAll(tasks, cancelAt, prefix, ReadyTasks(Play(tasks, cancelAt, prefix).value))
  }

  ghost function VisitAll(tasks: nat, cancelAt: Option<nat>, prefix: seq<nat>, choices: seq<nat>): seq<seq<nat>>
    requires AllReady(tasks, cancelAt, prefix, choices)
    decreases Budget(tasks, cancelAt, prefix), |choices|
  {
    if choices == [] then []
    else
      ChildFeasible(tasks, cancelAt, prefix, choices[0]);
      Visit(tasks, cancelAt, prefix + [choices[0]]) + VisitAll(tasks, cancelAt, prefix, choices[1..])
  }

  // The walk from a prefix lists exactly its feasible extensions.
  lemma {:induction false} VisitMembers(tasks: nat, cancelAt: Option<nat>, prefix: seq<nat>, p: seq<nat>)
    requires Feasible(tasks, cancelAt, prefix)
    ensures p in Visit(tasks, cancelAt, prefix) <==> prefix <= p && Feasible(tasks, cancelAt, p)
    decreases Budget(tasks, cancelAt, prefix), tasks + 1
  {
    var w := Play(tasks, cancelAt, prefix).value;
    var choices := ReadyTasks(w);
    ReadyTasksAllReady(tasks, cancelAt, prefix);
    VisitAllMembers(tasks, cancelAt, prefix, choices, p);
    if prefix < p && Feasible(tasks, cancelAt, p) {
      PrefixFeasible(tasks, cancelAt, p, |prefix| + 1);
      assert p[..|prefix| + 1] == prefix + [p[|prefix|]];
      PlayExtends(tasks, cancelAt, prefix, p[|prefix|]);
      assert p[|prefix|] in choices;
    } else if prefix <= p {
      assert |p| == |prefix| ==> p == prefix;
    }
  }

  lemma {:induction false} VisitAllMembers(
      tasks: nat, cancelAt: Option<nat>, prefix: seq<nat>, choices: seq<nat>, p: seq<nat>)
    requires AllReady(tasks, cancelAt, prefix, choices)
    ensures p in VisitAll(tasks, cancelAt, prefix, choices) <==>
      prefix < p && p[|prefix|] in choices && Feasible(tasks, cancelAt, p)
    decreases Budget(tasks, cancelAt, prefix), |choices|
  {
    if choices != [] {
      var first := prefix + [choices[0]];
      ChildFeasible(tasks, cancelAt, prefix, choices[0]);
      VisitMembers(tasks, cancelAt, first, p);
      VisitAllMembers(tasks, cancelAt, prefix, choices[1..], p);
      assert first <= p <==> prefix < p && p[|prefix|] == choices[0] by {
        if prefix < p && p[|prefix|] == choices[0] {
          assert p[..|first|] == first;
        }
      }
      assert choices == [choices[0]] + choices[1..];
    }
  }

  lemma {:induction false} VisitDistinct(tasks: nat, cancelAt: Option<nat>, prefix: seq<nat>)
    requires Feasible(tasks, cancelAt, prefix)
    ensures Distinct(Visit(tasks, cancelAt, prefix))
    decreases Budget(tasks, cancelAt, prefix), tasks + 1
  {
    var choices := ReadyTasks(Play(tasks, cancelAt, prefix).value);
    ReadyTasksAllReady(tasks, cancelAt, prefix);
    ReadyBelowDistinct(Play(tasks, cancelAt, prefix).value, tasks);
    VisitAllDistinct(tasks, cancelAt, prefix, choices);
    VisitAllMembers(tasks, cancelAt, prefix, choices, prefix);
    assert Distinct([prefix]);
    DistinctAppend([prefix], VisitAll(tasks, cancelAt, prefix, choices));
  }

  lemma {:induction false} VisitAllDistinct(tasks: nat, cancelAt: Option<nat>, prefix: seq<nat>, choices: seq<nat>)
    requires AllReady(tasks, cancelAt, prefix, choices) && Distinct(choices)
    ensures Distinct(VisitAll(tasks, cancelAt, prefix, choices))
    decreases Budget(tasks, cancelAt, prefix), |choices|
  {
    if choices != [] {
      var first := prefix + [choices[0]];
      var rest := choices[1..];
      ChildFeasible(tasks, cancelAt, prefix, choices[0]);
      VisitDistinct(tasks, cancelAt, first);
      assert choices == [choices[0]] + rest;
      DistinctSplit([choices[0]], rest);
      VisitAllDistinct(tasks, cancelAt, prefix, rest);
      forall p | p in Visit(tasks, cancelAt, first) ensures p !in VisitAll(tasks, cancelAt, prefix, rest) {
        VisitMembers(tasks, cancelAt, first, p);
        VisitAllMembers(tasks, cancelAt, prefix, rest, p);
        assert p[|prefix|] == choices[0];
      }
      DistinctAppend(Visit(tasks, cancelAt, first), VisitAll(tasks, cancelAt, prefix, rest));
    }
  }
}
