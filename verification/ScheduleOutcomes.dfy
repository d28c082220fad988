/** The final counter values over all schedules of n tasks: exactly 1..n, unless the
    cancellation of task 0 comes too early for it to write. */
module ScheduleOutcomes {
  import opened Options
  import opened ScheduleMachine
  import opened ScheduleTree
  import opened ScheduleExplorer

  // Cancellation requested before task 0 can have had a second quantum: it never writes.
  predicate TooEarly(c: Option<nat>) {
    c.Some? && c.value < 2
  }

  // The first task that can write.
  function FirstWriter(c: Option<nat>): nat {
    if TooEarly(c) then 1 else 0
  }

  /** The closed form: between one and the number of tasks that can write, or zero if
      none can. */
  predicate Attainable(tasks: nat, c: Option<nat>, v: int) {
    var most := tasks - FirstWriter(c);
    if most == 0 then v == 0 else 1 <= v <= most
  }

  /* Bounds. */

  // How many tasks are past their write.
  function Writers(phase: seq<nat>): nat {
    if phase == [] then 0
    else Writers(phase[..|phase| - 1]) + if phase[|phase| - 1] >= 2 then 1 else 0
  }

  lemma {:induction false} WritersUpdate(phase: seq<nat>, i: nat, v: nat)
    requires i < |phase|
    ensures Writers(phase[i := v]) + (if phase[i] >= 2 then 1 else 0) == Writers(phase) + if v >= 2 then 1 else 0
  {
    var front, last := phase[..|phase| - 1], phase[|phase| - 1];
    if i == |phase| - 1 {
      assert phase[i := v][..|phase| - 1] == front;
    } else {
      assert phase[i := v][..|phase| - 1] == front[i := v];
      WritersUpdate(front, i, v);
    }
  }

  lemma {:induction false} WritersBound(phase: seq<nat>)
    ensures Writers(phase) <= |phase|
    ensures (forall i :: 0 <= i < |phase| ==> phase[i] == 0) ==> Writers(phase) == 0
  {
    if phase != [] {
      WritersBound(phase[..|phase| - 1]);
    }
  }

  lemma WritersFrom(phase: seq<nat>, lo: nat, i: nat, v: nat)
    requires lo <= |phase| && i < |phase|
    ensures i < lo ==> phase[i := v][lo..] == phase[lo..]
    ensures i >= lo ==>
      Writers(phase[i := v][lo..]) + (if phase[i] >= 2 then 1 else 0) == Writers(phase[lo..]) + if v >= 2 then 1 else 0
  {
    if i >= lo {
      assert phase[i := v][lo..] == phase[lo..][i - lo := v];
      WritersUpdate(phase[lo..], i - lo, v);
    }
  }

  // No value anybody has read or written exceeds the number of writers so far, and a
  // task 0 that is cancelled too early never gets to its write.
  ghost predicate Bounded(w: World, c: Option<nat>) {
    var lo := FirstWriter(c);
    && lo <= |w.phase| == |w.seen|
    && 0 <= w.value <= Writers(w.phase[lo..])
    && (forall i :: 0 <= i < |w.phase| && w.phase[i] == 1 ==> 0 <= w.seen[i] <= Writers(w.phase[lo..]))
    && (lo == 1 ==> w.phase[0] != 2 && (w.phase[0] == 1 ==> CancelRequested(c, w.steps)))
  }

  lemma QuantumKeepsBounded(w: World, c: Option<nat>, task: nat)
    requires Bounded(w, c) && Ready(w, task)
    ensures Bounded(Quantum(c, w, task), c)
  {
    hide Writers;
    var next := Quantum(c, w, task);
    assert next.phase == w.phase[task := next.phase[task]];
    WritersFrom(w.phase, FirstWriter(c), task, next.phase[task]);
  }

  lemma {:induction false} PlayIsBounded(tasks: nat, c: Option<nat>, p: seq<nat>)
    requires tasks >= 1 && Feasible(tasks, c, p)
    ensures Bounded(Play(tasks, c, p).value, c)
  {
    if p == [] {
      WritersBound(Init(tasks).phase[FirstWriter(c)..]);
    } else {
      PlayIsBounded(tasks, c, p[..|p| - 1]);
      hide Bounded;
      QuantumKeepsBounded(Play(tasks, c, p[..|p| - 1]).value, c, p[|p| - 1]);
    }
  }

  // Once a task that cannot be stopped is past its write, the counter is positive.
  ghost predicate Written(w: World, c: Option<nat>) {
    && (forall i :: 1 <= i < |w.phase| && w.phase[i] >= 2 ==> w.value >= 1)
    && (|w.phase| == 1 && !TooEarly(c) ==>
          if w.phase[0] >= 2 then w.value >= 1 else w.steps == w.phase[0])
  }

  lemma QuantumKeepsWritten(w: World, c: Option<nat>, task: nat)
    requires Bounded(w, c) && Written(w, c) && Ready(w, task)
    ensures Written(Quantum(c, w, task), c)
  {
    hide Writers;
  }

  lemma {:induction false} PlayIsWritten(tasks: nat, c: Option<nat>, p: seq<nat>)
    requires tasks >= 1 && Feasible(tasks, c, p)
    ensures Written(Play(tasks, c, p).value, c)
  {
    if p != [] {
      var before := p[..|p| - 1];
      PlayIsBounded(tasks, c, before);
      PlayIsWritten(tasks, c, before);
      hide Bounded, Written;
      QuantumKeepsWritten(Play(tasks, c, before).value, c, p[|p| - 1]);
    }
  }

  // A complete schedule ends inside the bounds.
  lemma ValueInRange(tasks: nat, c: Option<nat>, p: seq<nat>)
    requires tasks >= 1 && Complete(tasks, c, p)
    ensures Attainable(tasks, c, Play(tasks, c, p).value.value)
  {
    var w := Play(tasks, c, p).value;
    PlayIsBounded(tasks, c, p);
    PlayIsWritten(tasks, c, p);
    WritersBound(w.phase[FirstWriter(c)..]);
    hide Writers, Play;
    assert w.phase[0] == 3 && (tasks >= 2 ==> w.phase[1] == 3);
  }

  /* A schedule for each value: `m` tasks other than task 0 all read 0 before anyone
     writes, so that their writes count once; task 0 runs to its end in between; the
     remaining tasks then run one after the other. */

  ghost predicate Phases(w: World, tasks: nat, first: nat, done: nat, m: nat, before: nat, after: nat) {
    && |w.phase| == |w.seen| == tasks >= 1
    && w.phase[0] == first
    && (forall i :: 1 <= i < tasks ==> w.phase[i] == if i <= done then after else if i <= m then before else 0)
  }

  ghost predicate SeenZero(w: World, n: nat) {
    forall i :: 1 <= i <= n && i < |w.seen| ==> w.seen[i] == 0
  }

  lemma {:induction false} Readers(tasks: nat, c: Option<nat>, m: nat, j: nat) returns (p: seq<nat>)
    requires j <= m < tasks
    ensures Feasible(tasks, c, p)
    ensures
      var w := Play(tasks, c, p).value;
      Phases(w, tasks, 0, j, m, 0, 1) && SeenZero(w, j) && w.value == 0
  {
    if j == 0 {
      p := [];
    } else {
      hide Init;
      var q := Readers(tasks, c, m, j - 1);
      PlayExtends(tasks, c, q, j);
      p := q + [j];
    }
  }

  // Running task 0 to its end, cancelled or not, concerns no other task.
  lemma {:induction false} Settle(tasks: nat, c: Option<nat>, q: seq<nat>, quanta: nat) returns (p: seq<nat>)
    requires tasks >= 1 && Feasible(tasks, c, q)
    requires var w := Play(tasks, c, q).value; w.phase[0] <= 3 && quanta == 3 - w.phase[0]
    ensures Feasible(tasks, c, p)
    ensures
      var w, v := Play(tasks, c, q).value, Play(tasks, c, p).value;
      && v.phase[0] == 3
      && forall i :: 1 <= i < tasks ==> v.phase[i] == w.phase[i] && v.seen[i] == w.seen[i]
    decreases quanta
  {
    if quanta == 0 {
      p := q;
    } else {
      PlayExtends(tasks, c, q, 0);
      p := Settle(tasks, c, q + [0], 3 - Play(tasks, c, q + [0]).value.phase[0]);
    }
  }

  lemma {:induction false} Writes(tasks: nat, c: Option<nat>, m: nat, j: nat) returns (p: seq<nat>)
    requires j <= m < tasks
    ensures Feasible(tasks, c, p)
    ensures
      var w := Play(tasks, c, p).value;
      Phases(w, tasks, 3, j, m, 1, 2) && SeenZero(w, m) && (j > 0 ==> w.value == 1)
  {
    if j == 0 {
      var q := Readers(tasks, c, m, m);
      hide Play;
      p := Settle(tasks, c, q, 3);
    } else {
      var q := Writes(tasks, c, m, j - 1);
      PlayExtends(tasks, c, q, j);
      p := q + [j];
    }
  }

  // The group is through: tasks 0 to m are done and the counter is 1.
  lemma {:induction false} Finishes(tasks: nat, c: Option<nat>, m: nat, j: nat) returns (p: seq<nat>)
    requires j <= m < tasks && m >= 1
    ensures Feasible(tasks, c, p)
    ensures var w := Play(tasks, c, p).value; Phases(w, tasks, 3, j, m, 2, 3) && w.value == 1
  {
    if j == 0 {
      p := Writes(tasks, c, m, m);
    } else {
      var q := Finishes(tasks, c, m, j - 1);
      PlayExtends(tasks, c, q, j);
      p := q + [j];
    }
  }

  // Three quanta of task 0 from the start, cancelled late enough for it to write.
  lemma ThreeQuanta(tasks: nat, c: Option<nat>, a: World, b: World, d: World)
    requires tasks >= 1 && !TooEarly(c)
    requires a == Quantum(c, Init(tasks), 0)
    requires Ready(a, 0) && |a.seen| == |a.phase| && b == Quantum(c, a, 0)
    requires Ready(b, 0) && |b.seen| == |b.phase| && d == Quantum(c, b, 0)
    ensures Phases(d, tasks, 3, 0, 0, 0, 0) && d.value == 1
  {
  }

  lemma TwoQuantaReady(tasks: nat, c: Option<nat>)
    requires tasks >= 1 && !TooEarly(c)
    ensures
      var a := Quantum(c, Init(tasks), 0);
      Ready(a, 0) && |a.seen| == |a.phase| && Ready(Quantum(c, a, 0), 0)
  {
  }

  // Task 0 alone.
  lemma Alone(tasks: nat, c: Option<nat>) returns (p: seq<nat>)
    requires tasks >= 1 && !TooEarly(c)
    ensures Feasible(tasks, c, p)
    ensures var w := Play(tasks, c, p).value; Phases(w, tasks, 3, 0, 0, 0, 0) && w.value == 1
  {
    assert Play(tasks, c, []) == Some(Init(tasks)) && Ready(Init(tasks), 0);
    hide Play, Quantum, Phases, Init, Ready;
    PlayExtends(tasks, c, [], 0);
    assert [] + [0] == [0] && [0] + [0] == [0, 0] && [0, 0] + [0] == [0, 0, 0];
    TwoQuantaReady(tasks, c);
    PlayExtends(tasks, c, [0], 0);
    PlayExtends(tasks, c, [0, 0], 0);
    p := [0, 0, 0];
    ThreeQuanta(tasks, c, Play(tasks, c, [0]).value, Play(tasks, c, [0, 0]).value, Play(tasks, c, p).value);
  }

  // The tasks after `m` one after the other.
  lemma {:induction false} Serial(tasks: nat, c: Option<nat>, q: seq<nat>, m: nat, j: nat) returns (p: seq<nat>)
    requires m + j < tasks && Feasible(tasks, c, q)
    requires var w := Play(tasks, c, q).value; Phases(w, tasks, 3, m, m, 0, 3) && w.value == 1
    ensures Feasible(tasks, c, p)
    ensures var w := Play(tasks, c, p).value; Phases(w, tasks, 3, m + j, m + j, 0, 3) && w.value == 1 + j
    decreases j
  {
    if j == 0 {
      p := q;
    } else {
      var r := Serial(tasks, c, q, m, j - 1);
      var t := m + j;
      PlayExtends(tasks, c, r, t);
      PlayExtends(tasks, c, r + [t], t);
      PlayExtends(tasks, c, r + [t] + [t], t);
      p := r + [t] + [t] + [t];
    }
  }

  lemma Attained(tasks: nat, c: Option<nat>, v: int) returns (p: seq<nat>)
    requires tasks >= 1 && Attainable(tasks, c, v)
    ensures Complete(tasks, c, p) && Ends(tasks, c, p, v)
  {
    if 1 <= v < tasks {
      var q := Finishes(tasks, c, tasks - v, tasks - v);
      p := Serial(tasks, c, q, tasks - v, v - 1);
    } else if v == 0 {
      p := Settle(tasks, c, [], 3);
      assert Complete(tasks, c, p);
      ValueInRange(tasks, c, p);
    } else {
      var q := Alone(tasks, c);
      p := Serial(tasks, c, q, 0, tasks - 1);
    }
  }

  // Some complete schedule ends with the counter at `v` exactly when the closed form
  // says so, wherever cancellation is injected.
  lemma ReachableValues(tasks: nat, c: Option<nat>, v: int)
    requires tasks >= 1
    ensures (exists p :: Complete(tasks, c, p) && Ends(tasks, c, p, v)) <==> Attainable(tasks, c, v)
  {
    if p :| Complete(tasks, c, p) && Ends(tasks, c, p, v) {
      ValueInRange(tasks, c, p);
    }
    if Attainable(tasks, c, v) {
      var p := Attained(tasks, c, v);
    }
  }

  // What the exploration reports as final values.
  lemma FinalValues(tasks: nat, c: Option<nat>, outcomes: set<int>)
    requires tasks >= 1
    requires Feasible(tasks, c, []) && Outcomes(tasks, c, Visit(tasks, c, []), outcomes)
    ensures forall v :: v in outcomes <==> Attainable(tasks, c, v)
  {
    var all := Visit(tasks, c, []);
    hide Complete, CompleteOf, Visit, Ends, Play, Attainable;
    forall v ensures v in outcomes <==> Attainable(tasks, c, v) {
      ReachableValues(tasks, c, v);
      CompleteOfMembers(tasks, c, all);
      EveryPrefixOnce(tasks, c);
      if p :| Complete(tasks, c, p) && Ends(tasks, c, p, v) {
        EndsIsFeasible(tasks, c, p, v);
        assert p in CompleteOf(tasks, c, all);
      }
    }
  }

  lemma EndsIsFeasible(tasks: nat, c: Option<nat>, p: seq<nat>, v: int)
    requires Ends(tasks, c, p, v)
    ensures Feasible(tasks, c, p)
  {
  }
}
