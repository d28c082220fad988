/** Runs with a cancellation injected at any step. */
module ScheduleCancel {
  import opened Options
  import opened Sequences
  import opened ScheduleMachine
  import opened ScheduleTree

  lemma {:induction false} FullBudget(tasks: nat, q: seq<nat>)
    requires |q| == tasks && forall i :: 0 <= i < tasks ==> q[i] == 3
    ensures Sum(q) == 3 * tasks
  {
    if tasks > 0 {
      FullBudget(tasks - 1, q[..tasks - 1]);
    }
  }

  // The quanta used and the quanta left never add up to more than three per task.
  lemma {:induction false} BudgetHolds(tasks: nat, c: Option<nat>, p: seq<nat>)
    requires Feasible(tasks, c, p)
    ensures |p| + Budget(tasks, c, p) <= 3 * tasks
  {
    if p == [] {
      FullBudget(tasks, Left(Init(tasks)));
    } else {
      var front, last := p[..|p| - 1], p[|p| - 1];
      assert p == front + [last];
      BudgetHolds(tasks, c, front);
      ChildFeasible(tasks, c, front, last);
    }
  }

  // Whatever is scheduled and whenever task 0 is cancelled, a run has at most 3n quanta.
  lemma RunLength(tasks: nat, c: Option<nat>, p: seq<nat>)
    requires Feasible(tasks, c, p)
    ensures |p| <= 3 * tasks
  {
    BudgetHolds(tasks, c, p);
  }

  ghost function Terminal(w: Option<World>, i: nat): bool {
    w.Some? && i < |w.value.phase| && w.value.phase[i] == 3
  }

  // How often task `i` entered its terminal phase during the run.
  ghost function Terminations(tasks: nat, c: Option<nat>, p: seq<nat>, i: nat): nat {
    if p == [] then 0
    else
      Terminations(tasks, c, p[..|p| - 1], i)
      + if Terminal(Play(tasks, c, p), i) && !Terminal(Play(tasks, c, p[..|p| - 1]), i) then 1 else 0
  }

  // A task enters its terminal phase once, and never leaves it.
  lemma {:induction false} TerminatesOnce(tasks: nat, c: Option<nat>, p: seq<nat>, i: nat)
    requires Feasible(tasks, c, p) && i < tasks
    ensures Terminations(tasks, c, p, i) == if Play(tasks, c, p).value.phase[i] == 3 then 1 else 0
  {
    if p != [] {
      TerminatesOnce(tasks, c, p[..|p| - 1], i);
    }
  }

  // Some quantum of task 0 came after the cancellation request.
  ghost predicate CaughtByCancel(c: Option<nat>, p: seq<nat>) {
    exists k :: 0 <= k < |p| && p[k] == 0 && CancelRequested(c, k)
  }

  // ... and it was the first quantum of task 0.
  ghost predicate CaughtUnstarted(c: Option<nat>, p: seq<nat>) {
    exists k :: 0 <= k < |p| && p[k] == 0 && CancelRequested(c, k) && 0 !in p[..k]
  }

  lemma CaughtExtends(c: Option<nat>, p: seq<nat>, t: nat)
    ensures CaughtByCancel(c, p + [t]) <==> CaughtByCancel(c, p) || (t == 0 && CancelRequested(c, |p|))
    ensures CaughtUnstarted(c, p + [t]) <==>
      CaughtUnstarted(c, p) || (t == 0 && CancelRequested(c, |p|) && 0 !in p)
  {
    var q := p + [t];
    assert forall k :: 0 <= k <= |p| ==> q[..k] == p[..k];
    assert p[..|p|] == p;
    if CaughtByCancel(c, p) {
      var k :| 0 <= k < |p| && p[k] == 0 && CancelRequested(c, k);
      assert q[k] == 0;
    }
    if CaughtUnstarted(c, p) {
      var k :| 0 <= k < |p| && p[k] == 0 && CancelRequested(c, k) && 0 !in p[..k];
      assert q[k] == 0 && 0 !in q[..k];
    }
    if t == 0 && CancelRequested(c, |p|) {
      assert q[|p|] == 0;
    }
  }

  // Cancellation is recorded exactly when it caught task 0, which is then over; a
  // task that never had a quantum is still pending.
  ghost predicate CancelState(tasks: nat, c: Option<nat>, p: seq<nat>, w: World)
    requires |w.phase| == tasks
  {
    && (w.cancelled <==> CaughtByCancel(c, p))
    && (w.cancelled ==> tasks > 0 && w.phase[0] == 3)
    && (CaughtUnstarted(c, p) ==> w.cancelled)
    && (tasks > 0 ==> (w.phase[0] == 0 <==> 0 !in p))
    && (tasks > 0 && 0 < w.phase[0] < 3 ==> !CaughtUnstarted(c, p))
  }

  // A finalizer has run for every finished task, once, unless task 0 was
  // cancelled before its first quantum.
  ghost predicate Finalized(tasks: nat, c: Option<nat>, p: seq<nat>, w: World)
    requires |w.phase| == tasks
  {
    && Distinct(w.finalizers)
    && forall i: nat :: i in w.finalizers <==>
         i < tasks && w.phase[i] == 3 && !(i == 0 && CaughtUnstarted(c, p))
  }

  ghost predicate Tracked(tasks: nat, c: Option<nat>, p: seq<nat>, w: World) {
    Sized(w, tasks) && w.steps == |p| && CancelState(tasks, c, p, w) && Finalized(tasks, c, p, w)
  }

  lemma QuantumCancelState(tasks: nat, c: Option<nat>, p: seq<nat>, w: World, t: nat)
    requires Tracked(tasks, c, p, w) && Ready(w, t)
    ensures Sized(Quantum(c, w, t), tasks) && CancelState(tasks, c, p + [t], Quantum(c, w, t))
  {
    hide Finalized, CaughtByCancel, CaughtUnstarted, CancelRequested;
    CaughtExtends(c, p, t);
    assert forall x :: x in p + [t] <==> x in p || x == t;
  }

  lemma QuantumFinalized(tasks: nat, c: Option<nat>, p: seq<nat>, w: World, t: nat)
    requires Tracked(tasks, c, p, w) && Ready(w, t) && Sized(Quantum(c, w, t), tasks)
    ensures Finalized(tasks, c, p + [t], Quantum(c, w, t))
  {
    hide Distinct, CaughtByCancel, CaughtUnstarted, CancelRequested;
    CaughtExtends(c, p, t);
    assert t !in w.finalizers;
    assert Distinct([t]) by { SingleIsDistinct(t); }
    DistinctAppend(w.finalizers, [t]);
  }

  lemma SingleIsDistinct(t: nat)
    ensures Distinct([t])
  {
  }

  lemma QuantumTracked(tasks: nat, c: Option<nat>, p: seq<nat>, w: World, t: nat)
    requires Tracked(tasks, c, p, w) && Ready(w, t)
    ensures Tracked(tasks, c, p + [t], Quantum(c, w, t))
  {
    QuantumCancelState(tasks, c, p, w, t);
    QuantumFinalized(tasks, c, p, w, t);
    hide CancelState, Finalized, Sized;
    assert |p + [t]| == |p| + 1;
  }

  lemma {:induction false} PlayTracked(tasks: nat, c: Option<nat>, p: seq<nat>)
    requires Feasible(tasks, c, p)
    ensures Tracked(tasks, c, p, Play(tasks, c, p).value)
  {
    if p != [] {
      var front, last := p[..|p| - 1], p[|p| - 1];
      assert p == front + [last];
      PlayTracked(tasks, c, front);
      hide Tracked;
      QuantumTracked(tasks, c, front, Play(tasks, c, front).value, last);
    }
  }

  // In a complete run the finalizers are those of all tasks, without repetition,
  // except a task 0 cancelled before its first quantum.
  lemma FinalizersOfCompleteRun(tasks: nat, c: Option<nat>, p: seq<nat>)
    requires Complete(tasks, c, p)
    ensures
      var w := Play(tasks, c, p).value;
      && Distinct(w.finalizers)
      && forall i: nat :: i in w.finalizers <==> i < tasks && !(i == 0 && CaughtUnstarted(c, p))
  {
    PlayTracked(tasks, c, p);
  }

  // Task 0 is reported cancelled exactly when the request caught it.
  lemma CancelledExactlyWhenCaught(tasks: nat, c: Option<nat>, p: seq<nat>)
    requires Feasible(tasks, c, p)
    ensures Play(tasks, c, p).value.cancelled <==> CaughtByCancel(c, p)
  {
    PlayTracked(tasks, c, p);
  }

  // The first quantum of task 0 after the request ends it: it writes nothing, reads
  // nothing and is never scheduled again.
  lemma CancelledTaskStops(tasks: nat, c: Option<nat>, p: seq<nat>, k: nat)
    requires Feasible(tasks, c, p)
    requires k < |p| && p[k] == 0 && CancelRequested(c, k)
    ensures Feasible(tasks, c, p[..k]) && Feasible(tasks, c, p[..k + 1])
    ensures
      var before, after := Play(tasks, c, p[..k]).value, Play(tasks, c, p[..k + 1]).value;
      after.value == before.value && after.seen == before.seen && tasks > 0 && after.phase[0] == 3
    ensures forall m :: k < m < |p| ==> p[m] != 0
  {
    OneQuantum(tasks, c, p, k);
    PlayIsSized(tasks, c, p[..k]);
    hide Play;
    forall m | k < m < |p| ensures p[m] != 0 {
      StaysTerminal(tasks, c, p, k + 1, m, 0);
      OneQuantum(tasks, c, p, m);
    }
  }

  // The quantum numbered `k` of a run.
  lemma OneQuantum(tasks: nat, c: Option<nat>, p: seq<nat>, k: nat)
    requires Feasible(tasks, c, p) && k < |p|
    ensures Feasible(tasks, c, p[..k]) && Feasible(tasks, c, p[..k + 1])
    ensures
      var w := Play(tasks, c, p[..k]).value;
      Ready(w, p[k]) && Play(tasks, c, p[..k + 1]).value == Quantum(c, w, p[k])
  {
    PrefixFeasible(tasks, c, p, k);
    PrefixFeasible(tasks, c, p, k + 1);
    assert p[..k + 1] == p[..k] + [p[k]];
    PlayExtends(tasks, c, p[..k], p[k]);
  }

  lemma {:induction false} StaysTerminal(tasks: nat, c: Option<nat>, p: seq<nat>, k: nat, m: nat, i: nat)
    requires Feasible(tasks, c, p) && k <= m <= |p| && i < tasks
    requires Terminal(Play(tasks, c, p[..k]), i)
    ensures Terminal(Play(tasks, c, p[..m]), i)
    decreases m
  {
    if k < m {
      StaysTerminal(tasks, c, p, k, m - 1, i);
      PrefixFeasible(tasks, c, p, m - 1);
      PrefixFeasible(tasks, c, p, m);
      assert p[..m] == p[..m - 1] + [p[m - 1]];
      PlayExtends(tasks, c, p[..m - 1], p[m - 1]);
    }
  }

  // Every run can be continued until all tasks are terminal, and only then stops.
  lemma {:induction false} EveryRunCompletes(tasks: nat, c: Option<nat>, p: seq<nat>) returns (q: seq<nat>)
    requires Feasible(tasks, c, p)
    ensures p <= q && Complete(tasks, c, q)
    decreases Budget(tasks, c, p)
  {
    if t: nat :| Ready(Play(tasks, c, p).value, t) {
      ChildFeasible(tasks, c, p, t);
      q := EveryRunCompletes(tasks, c, p + [t]);
    } else {
      q := p;
      forall i: nat | i < tasks ensures Play(tasks, c, p).value.phase[i] == 3 {
        assert !Ready(Play(tasks, c, p).value, i);
      }
    }
  }
}
