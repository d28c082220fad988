/** The counter and the finalizers of one schedule, by positions in the schedule. */
module SchedulePositions {
  import opened Options
  import opened ScheduleMachine
  import opened ScheduleCancel

  // The quantum numbered `k` is one in which task 0 notices its cancellation.
  ghost predicate Noticed(c: Option<nat>, p: seq<nat>, k: nat)
    requires k < |p|
  {
    p[k] == 0 && c.Some? && c.value <= k
  }

  // The phase of a task is the number of quanta it has had, unless it was cancelled.
  lemma {:induction false} PhaseCounts(tasks: nat, c: Option<nat>, p: seq<nat>, i: nat)
    requires Feasible(tasks, c, p) && i < tasks
    ensures Play(tasks, c, p).value.phase[i] == if i == 0 && CaughtByCancel(c, p) then 3 else multiset(p)[i]
  {
    if p != [] {
      var front, last := p[..|p| - 1], p[|p| - 1];
      assert p == front + [last];
      PhaseCounts(tasks, c, front, i);
      CaughtExtends(c, front, last);
      PlayIsSized(tasks, c, front);
      hide CaughtByCancel;
    }
  }

  // The choice numbered `k` may be made: a task that exists, has had fewer than three
  // quanta and has not noticed a cancellation.
  ghost predicate MayRun(tasks: nat, c: Option<nat>, p: seq<nat>, k: nat)
    requires k < |p|
  {
    && p[k] < tasks
    && multiset(p[..k])[p[k]] < 3
    && (p[k] == 0 ==> forall m :: 0 <= m < k ==> !Noticed(c, p, m))
  }

  lemma MayRunFront(tasks: nat, c: Option<nat>, p: seq<nat>, last: nat)
    ensures (forall k :: 0 <= k < |p + [last]| ==> MayRun(tasks, c, p + [last], k)) <==>
      (forall k :: 0 <= k < |p| ==> MayRun(tasks, c, p, k)) && MayRun(tasks, c, p + [last], |p|)
  {
    var q := p + [last];
    forall k | 0 <= k < |p| ensures MayRun(tasks, c, q, k) <==> MayRun(tasks, c, p, k) {
      assert q[..k] == p[..k];
      assert forall m :: 0 <= m < k ==> (Noticed(c, q, m) <==> Noticed(c, p, m));
      if m :| 0 <= m < k && Noticed(c, p, m) {
        assert Noticed(c, q, m);
      }
    }
    hide MayRun;
    if forall k :: 0 <= k < |q| ==> MayRun(tasks, c, q, k) {
      assert MayRun(tasks, c, q, |p|);
    }
  }

  lemma LastMayRun(tasks: nat, c: Option<nat>, p: seq<nat>, last: nat)
    requires Feasible(tasks, c, p)
    ensures MayRun(tasks, c, p + [last], |p|) <==> Ready(Play(tasks, c, p).value, last)
  {
    var q := p + [last];
    assert q[..|p|] == p;
    if last < tasks {
      PlayIsSized(tasks, c, p);
      PhaseCounts(tasks, c, p, last);
      hide Play;
      if CaughtByCancel(c, p) {
        var m :| 0 <= m < |p| && p[m] == 0 && CancelRequested(c, m);
        assert Noticed(c, q, m);
      }
      if m :| 0 <= m < |p| && Noticed(c, q, m) {
        assert p[m] == 0 && CancelRequested(c, m);
      }
    }
  }

  // A schedule can be replayed exactly when each of its choices may be made.
  lemma {:induction false} FeasibleByPositions(tasks: nat, c: Option<nat>, p: seq<nat>)
    ensures Feasible(tasks, c, p) <==> forall k :: 0 <= k < |p| ==> MayRun(tasks, c, p, k)
  {
    if p != [] {
      var front, last := p[..|p| - 1], p[|p| - 1];
      assert p == front + [last];
      FeasibleByPositions(tasks, c, front);
      hide MayRun;
      MayRunFront(tasks, c, front, last);
      if Feasible(tasks, c, front) {
        LastMayRun(tasks, c, front, last);
      }
    }
  }

  // What task `i` has read stays until its next quantum.
  lemma {:induction false} ReadStays(tasks: nat, c: Option<nat>, p: seq<nat>, j: nat, k: nat, i: nat)
    requires Feasible(tasks, c, p) && j <= k <= |p| && i < tasks && i !in p[j..k]
    ensures Feasible(tasks, c, p[..j]) && Feasible(tasks, c, p[..k])
    ensures Play(tasks, c, p[..k]).value.seen[i] == Play(tasks, c, p[..j]).value.seen[i]
    decreases k
  {
    hide Play, Feasible;
    PrefixFeasible(tasks, c, p, j);
    if j < k {
      assert p[j..k] == p[j..k - 1] + [p[k - 1]];
      assert p[k - 1] in p[j..k];
      ReadStays(tasks, c, p, j, k - 1, i);
      OneQuantum(tasks, c, p, k - 1);
      ReadKept(c, Play(tasks, c, p[..k - 1]).value, p[k - 1], i);
    }
  }

  lemma ReadKept(c: Option<nat>, w: World, task: nat, i: nat)
    requires Ready(w, task) && |w.seen| == |w.phase| && i < |w.seen| && i != task
    ensures i < |Quantum(c, w, task).seen| && Quantum(c, w, task).seen[i] == w.seen[i]
  {
  }

  lemma NotCaught(c: Option<nat>, p: seq<nat>, k: nat)
    requires k < |p| && p[k] == 0 && !Noticed(c, p, k)
    ensures !CaughtByCancel(c, p[..k])
  {
  }

  // The phase of a task just before a quantum that does not notice a cancellation.
  lemma PhaseBefore(tasks: nat, c: Option<nat>, p: seq<nat>, k: nat)
    requires Feasible(tasks, c, p) && k < |p| && !Noticed(c, p, k)
    ensures Feasible(tasks, c, p[..k]) && Feasible(tasks, c, p[..k + 1])
    ensures
      var w := Play(tasks, c, p[..k]).value;
      && Ready(w, p[k]) && |w.phase| == |w.seen| == tasks && p[k] < tasks
      && w.phase[p[k]] == multiset(p[..k])[p[k]]
      && Play(tasks, c, p[..k + 1]).value == Quantum(c, w, p[k])
      && !(p[k] == 0 && CancelRequested(c, w.steps))
  {
    OneQuantum(tasks, c, p, k);
    PhaseCounts(tasks, c, p[..k], p[k]);
    PlayIsSized(tasks, c, p[..k]);
    hide Play;
    if p[k] == 0 {
      NotCaught(c, p, k);
    }
  }

  lemma TurnsBetween(p: seq<nat>, j: nat, k: nat)
    requires j < k < |p| && p[j] !in p[..j] && p[j] !in p[j + 1..k]
    ensures multiset(p[..j])[p[j]] == 0 && multiset(p[..k])[p[j]] == 1
  {
    assert p[..k] == p[..j] + [p[j]] + p[j + 1..k];
    assert multiset(p[j + 1..k])[p[j]] == 0;
  }

  // The second quantum of a task that is not cancelled by then writes what the counter
  // was at its first quantum, plus one: whatever others wrote in between is lost.
  lemma SecondQuantumWrites(tasks: nat, c: Option<nat>, p: seq<nat>, j: nat, k: nat)
    requires Feasible(tasks, c, p) && j < k < |p| && p[j] == p[k]
    requires p[j] !in p[..j] && p[j] !in p[j + 1..k]
    requires !Noticed(c, p, k)
    ensures Feasible(tasks, c, p[..j]) && Feasible(tasks, c, p[..k + 1])
    ensures Play(tasks, c, p[..k + 1]).value.value == Play(tasks, c, p[..j]).value.value + 1
  {
    hide Play, Feasible;
    TurnsBetween(p, j, k);
    PhaseBefore(tasks, c, p, j);
    PhaseBefore(tasks, c, p, k);
    ReadStays(tasks, c, p, j + 1, k, p[j]);
  }

  // Every other quantum leaves the counter alone.
  lemma OtherQuantaKeepCounter(tasks: nat, c: Option<nat>, p: seq<nat>, k: nat)
    requires Feasible(tasks, c, p) && k < |p|
    requires multiset(p[..k])[p[k]] != 1 || Noticed(c, p, k)
    ensures Feasible(tasks, c, p[..k]) && Feasible(tasks, c, p[..k + 1])
    ensures Play(tasks, c, p[..k + 1]).value.value == Play(tasks, c, p[..k]).value.value
  {
    OneQuantum(tasks, c, p, k);
    PlayIsSized(tasks, c, p[..k]);
    hide Play;
    if !Noticed(c, p, k) {
      PhaseBefore(tasks, c, p, k);
    }
  }

  // A finalizer is appended by the third quantum of a task, and by the quantum in which
  // a task that has started notices its cancellation; by no other.
  lemma FinalizersGrow(tasks: nat, c: Option<nat>, p: seq<nat>, k: nat)
    requires Feasible(tasks, c, p) && k < |p|
    ensures Feasible(tasks, c, p[..k]) && Feasible(tasks, c, p[..k + 1])
    ensures
      var turns := multiset(p[..k])[p[k]];
      Play(tasks, c, p[..k + 1]).value.finalizers ==
        Play(tasks, c, p[..k]).value.finalizers
        + if (if Noticed(c, p, k) then turns > 0 else turns == 2) then [p[k]] else []
  {
    OneQuantum(tasks, c, p, k);
    PhaseCounts(tasks, c, p[..k], p[k]);
    PlayIsSized(tasks, c, p[..k]);
    PlayTracked(tasks, c, p[..k]);
    hide Play;
    if p[k] == 0 && !Noticed(c, p, k) {
      NotCaught(c, p, k);
    }
  }

  // The last quantum of task `i` is the one numbered `k`.
  ghost predicate LastTurn(p: seq<nat>, i: nat, k: nat) {
    k < |p| && p[k] == i && i !in p[k + 1..]
  }

  lemma LastTurnExtends(p: seq<nat>, t: nat, i: nat, k: nat)
    ensures LastTurn(p + [t], i, k) <==> if i == t then k == |p| else LastTurn(p, i, k)
  {
    var q := p + [t];
    if k < |p| {
      assert q[k + 1..] == p[k + 1..] + [t];
    }
  }

  // The last quantum of a run: a finished task has no more of them.
  lemma LastFinalizer(tasks: nat, c: Option<nat>, front: seq<nat>, last: nat)
    requires Feasible(tasks, c, front + [last])
    ensures Feasible(tasks, c, front)
    ensures
      var before := Play(tasks, c, front).value.finalizers;
      var after := Play(tasks, c, front + [last]).value.finalizers;
      last !in before && (after == before || after == before + [last])
  {
    var p := front + [last];
    assert p[..|front|] == front && p[..|front| + 1] == p;
    FinalizersGrow(tasks, c, p, |front|);
    OneQuantum(tasks, c, p, |front|);
    PlayTracked(tasks, c, front);
    hide Play;
    assert Finalized(tasks, c, front, Play(tasks, c, front).value);
  }

  // The finalizers of two tasks run in the order of their last quanta.
  lemma {:induction false} FinalizersInOrder(
      tasks: nat, c: Option<nat>, p: seq<nat>, a: nat, b: nat, j: nat, k: nat)
    requires Feasible(tasks, c, p)
    requires a < b < |Play(tasks, c, p).value.finalizers|
    requires LastTurn(p, Play(tasks, c, p).value.finalizers[a], j)
    requires LastTurn(p, Play(tasks, c, p).value.finalizers[b], k)
    ensures j < k
  {
    var front, last := p[..|p| - 1], p[|p| - 1];
    assert p == front + [last];
    hide Play, Feasible, LastTurn;
    LastFinalizer(tasks, c, front, last);
    var finalizers := Play(tasks, c, front).value.finalizers;
    LastTurnExtends(front, last, finalizers[a], j);
    if b < |finalizers| {
      LastTurnExtends(front, last, finalizers[b], k);
      FinalizersInOrder(tasks, c, front, a, b, j, k);
    } else {
      LastTurnExtends(front, last, last, k);
      LastTurnBounds(front, finalizers[a], j);
    }
  }

  lemma LastTurnBounds(p: seq<nat>, i: nat, k: nat)
    requires LastTurn(p, i, k)
    ensures k < |p|
  {
  }
}
