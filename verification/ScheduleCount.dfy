/** How many schedules there are: (3n)! / 6^n for n tasks without cancellation. */
module ScheduleCount {
  import opened Options
  import opened ScheduleMachine
  import opened ScheduleTree
  import opened ScheduleExplorer

  function Factorial(n: nat): (r: nat)
    ensures r > 0
  {
    if n == 0 then 1 else n * Factorial(n - 1)
  }

  function Power(b: nat, n: nat): nat {
    if n == 0 then 1 else Power(b, n - 1) * b
  }

  // The product of the factorials of the entries.
  function Arrangements(q: seq<nat>): nat {
    if q == [] then 1 else Arrangements(q[..|q| - 1]) * Factorial(q[|q| - 1])
  }

  lemma {:induction false} ArrangementsUpdate(q: seq<nat>, i: nat)
    requires i < |q| && q[i] > 0
    ensures Arrangements(q) == Arrangements(q[i := q[i] - 1]) * q[i]
  {
    var front, last := q[..|q| - 1], q[|q| - 1];
    if i == |q| - 1 {
      assert q[i := last - 1][..|q| - 1] == front;
      Regroup(Arrangements(front), Factorial(last - 1), last);
    } else {
      assert q[i := q[i] - 1][..|q| - 1] == front[i := q[i] - 1];
      ArrangementsUpdate(front, i);
      Regroup(Arrangements(front[i := q[i] - 1]), q[i], Factorial(last));
    }
  }

  lemma Regroup(a: nat, b: nat, c: nat)
    ensures a * (c * b) == a * b * c && a * b * c == a * c * b
  {
    assert c * b == b * c;
    assert a * (b * c) == a * b * c;
    assert a * (c * b) == a * c * b;
  }

  ghost predicate InRange(q: seq<nat>, choices: seq<nat>) {
    forall k :: 0 <= k < |choices| ==> choices[k] < |q|
  }

  // The entries of `q` at the chosen positions, added up.
  ghost function SumAt(q: seq<nat>, choices: seq<nat>): nat
    requires InRange(q, choices)
  {
    if choices == [] then 0 else q[choices[0]] + SumAt(q, choices[1..])
  }

  lemma {:induction false} SumAtConcat(q: seq<nat>, a: seq<nat>, b: seq<nat>)
    requires InRange(q, a) && InRange(q, b)
    ensures InRange(q, a + b)
    ensures SumAt(q, a + b) == SumAt(q, a) + SumAt(q, b)
  {
    if a == [] {
      assert a + b == b;
    } else {
      assert (a + b)[1..] == a[1..] + b;
      SumAtConcat(q, a[1..], b);
    }
  }

  lemma SumPrefix(q: seq<nat>, k: nat)
    requires k < |q|
    ensures Sum(q[..k + 1]) == Sum(q[..k]) + q[k]
  {
    assert q[..k + 1][..k] == q[..k];
  }

  lemma ReadyStep(w: World, tasks: nat, k: nat)
    requires Sized(w, tasks) && k < tasks
    ensures |Left(w)| == tasks
    ensures Ready(w, k) ==> ReadyBelow(w, k + 1) == ReadyBelow(w, k) + [k]
    ensures !Ready(w, k) ==> ReadyBelow(w, k + 1) == ReadyBelow(w, k) && Left(w)[k] == 0
  {
  }

  lemma CarryOne(q: seq<nat>, r: seq<nat>, k: nat)
    requires k < |q| && InRange(q, r) && SumAt(q, r) == Sum(q[..k])
    ensures InRange(q, r + [k]) && SumAt(q, r + [k]) == Sum(q[..k + 1])
  {
    SumPrefix(q, k);
    var last: seq<nat> := [k];
    SumAtFirst(q, last);
    assert last[1..] == [];
    hide Sum;
    SumAtConcat(q, r, last);
  }

  // The ready tasks carry all the quanta that are left.
  lemma {:induction false} ReadyCarryEverything(w: World, tasks: nat, q: seq<nat>, k: nat)
    requires Sized(w, tasks) && k <= tasks == |w.phase| && q == Left(w)
    ensures InRange(q, ReadyBelow(w, k))
    ensures SumAt(q, ReadyBelow(w, k)) == Sum(q[..k])
  {
    hide Left, Ready, Sized, Sum, InRange, SumAt;
    if k == 0 {
      NothingBelow(w, q);
    } else {
      hide ReadyBelow;
      ReadyStep(w, tasks, k - 1);
      ReadyCarryEverything(w, tasks, q, k - 1);
      SumPrefix(q, k - 1);
      if Ready(w, k - 1) {
        CarryOne(q, ReadyBelow(w, k - 1), k - 1);
      }
    }
  }

  lemma NothingBelow(w: World, q: seq<nat>)
    ensures InRange(q, ReadyBelow(w, 0)) && SumAt(q, ReadyBelow(w, 0)) == Sum(q[..0])
  {
  }

  ghost function Count(tasks: nat, prefix: seq<nat>): nat
    requires Feasible(tasks, None, prefix)
  {
    |CompleteOf(tasks, None, Visit(tasks, None, prefix))|
  }

  lemma ChildLeft(tasks: nat, prefix: seq<nat>, choice: nat)
    requires Feasible(tasks, None, prefix) && Ready(Play(tasks, None, prefix).value, choice)
    ensures Feasible(tasks, None, prefix + [choice])
    ensures
      var q := Left(Play(tasks, None, prefix).value);
      choice < |q| && q[choice] > 0 && Left(Play(tasks, None, prefix + [choice]).value) == q[choice := q[choice] - 1]
  {
    PlayIsSized(tasks, None, prefix);
    PlayExtends(tasks, None, prefix, choice);
    hide Play;
    QuantumLeft(tasks, Play(tasks, None, prefix).value, choice);
  }

  lemma QuantumLeft(tasks: nat, w: World, task: nat)
    requires Sized(w, tasks) && Ready(w, task)
    ensures Left(w)[task] > 0
    ensures Left(Quantum(None, w, task)) == Left(w)[task := Left(w)[task] - 1]
  {
  }

  // A walk over some choices, weighed by the arrangements of the remaining quanta.
  lemma {:induction false} CountAll(tasks: nat, prefix: seq<nat>, choices: seq<nat>, q: seq<nat>, s: nat)
    requires AllReady(tasks, None, prefix, choices)
    requires q == Left(Play(tasks, None, prefix).value) && Sum(q) == s + 1
    ensures InRange(q, choices)
    ensures |CompleteOf(tasks, None, VisitAll(tasks, None, prefix, choices))| * Arrangements(q) ==
      SumAt(q, choices) * Factorial(s)
    decreases Budget(tasks, None, prefix), |choices|
  {
    hide Play, Left, Arrangements, SumAt, Sum, Feasible, Complete, Visit, VisitAll, CompleteOf, Factorial, AllReady,
         InRange, Ready;
    ChoicesInRange(tasks, prefix, choices);
    if choices == [] {
      NoChoiceCount(tasks, prefix, q);
    } else {
      var first, rest := choices[0], choices[1..];
      var child := prefix + [first];
      FirstChoice(tasks, prefix, choices);
      ChildLeft(tasks, prefix, first);
      SumUpdate(q, first, q[first] - 1);
      ArrangementsUpdate(q, first);
      SumAtFirst(q, choices);
      CountFrom(tasks, child, q[first := q[first] - 1]);
      CountAll(tasks, prefix, rest, q, s);
      CompleteOfConcat(tasks, None, Visit(tasks, None, child), VisitAll(tasks, None, prefix, rest));
      var a, b := Count(tasks, child), |CompleteOf(tasks, None, VisitAll(tasks, None, prefix, rest))|;
      Weigh(a, b, Arrangements(q), Arrangements(q[first := q[first] - 1]), q[first], SumAt(q, rest), Factorial(s));
    }
  }

  lemma NoChoiceCount(tasks: nat, prefix: seq<nat>, q: seq<nat>)
    requires AllReady(tasks, None, prefix, [])
    ensures |CompleteOf(tasks, None, VisitAll(tasks, None, prefix, []))| == 0 && SumAt(q, []) == 0
  {
  }

  lemma ChoicesInRange(tasks: nat, prefix: seq<nat>, choices: seq<nat>)
    requires AllReady(tasks, None, prefix, choices)
    ensures InRange(Left(Play(tasks, None, prefix).value), choices)
  {
    forall k | 0 <= k < |choices| ensures choices[k] < tasks {
      assert choices[k] in choices;
    }
  }

  lemma FirstChoice(tasks: nat, prefix: seq<nat>, choices: seq<nat>)
    requires AllReady(tasks, None, prefix, choices) && choices != []
    ensures Ready(Play(tasks, None, prefix).value, choices[0])
    ensures AllReady(tasks, None, prefix, choices[1..])
    ensures Feasible(tasks, None, prefix + [choices[0]])
    ensures Budget(tasks, None, prefix + [choices[0]]) < Budget(tasks, None, prefix)
    ensures VisitAll(tasks, None, prefix, choices) ==
      Visit(tasks, None, prefix + [choices[0]]) + VisitAll(tasks, None, prefix, choices[1..])
  {
    ChildFeasible(tasks, None, prefix, choices[0]);
  }

  lemma SumAtFirst(q: seq<nat>, choices: seq<nat>)
    requires choices != [] && InRange(q, choices)
    ensures InRange(q, choices[1..]) && SumAt(q, choices) == q[choices[0]] + SumAt(q, choices[1..])
  {
  }

  lemma Weigh(a: nat, b: nat, whole: nat, part: nat, left: nat, rest: nat, f: nat)
    requires whole == part * left
    requires a * part == f
    requires b * whole == rest * f
    ensures (a + b) * whole == (left + rest) * f
  {
    assert a * whole == (a * part) * left;
    assert (a + b) * whole == a * whole + b * whole;
  }

  lemma {:induction false} NothingLeft(q: seq<nat>)
    requires forall i :: 0 <= i < |q| ==> q[i] == 0
    ensures Sum(q) == 0 && Arrangements(q) == 1
  {
    if q != [] {
      NothingLeft(q[..|q| - 1]);
    }
  }

  // The schedules continuing a prefix: their number times the factorials of the
  // quanta left to each task is the factorial of the quanta left altogether.
  lemma {:induction false} CountFrom(tasks: nat, prefix: seq<nat>, q: seq<nat>)
    requires Feasible(tasks, None, prefix) && q == Left(Play(tasks, None, prefix).value)
    ensures Count(tasks, prefix) * Arrangements(q) == Factorial(Sum(q))
    decreases Budget(tasks, None, prefix), tasks + 1
  {
    assert Factorial(0) == 1;
    hide Play, Left, Arrangements, SumAt, Sum, Feasible, Complete, Visit, VisitAll, CompleteOf, AllReady, InRange,
         Ready, ReadyBelow;
    var ready := ReadyAt(tasks, prefix);
    NodeCount(tasks, prefix);
    if ready == [] {
      NothingReadyLeft(tasks, prefix);
    } else {
      SomeReadyLeft(tasks, prefix);
      CountAll(tasks, prefix, ready, q, Sum(q) - 1);
    }
  }

  function ReadyAt(tasks: nat, prefix: seq<nat>): (r: seq<nat>)
    requires Feasible(tasks, None, prefix)
    ensures |r| <= tasks
  {
    ReadyTasks(Play(tasks, None, prefix).value)
  }

  // A node of the tree is a leaf that counts, or counts what its children count.
  lemma NodeCount(tasks: nat, prefix: seq<nat>)
    requires Feasible(tasks, None, prefix)
    ensures
      var ready := ReadyAt(tasks, prefix);
      && AllReady(tasks, None, prefix, ready)
      && Count(tasks, prefix) ==
           if ready == [] then 1 else |CompleteOf(tasks, None, VisitAll(tasks, None, prefix, ready))|
  {
    var ready := ReadyTasks(Play(tasks, None, prefix).value);
    ReadyTasksAllReady(tasks, None, prefix);
    NothingReady(tasks, None, prefix);
    CompleteOfConcat(tasks, None, [prefix], VisitAll(tasks, None, prefix, ready));
    OnlyOne(tasks, prefix);
    if ready == [] {
      assert [prefix] + VisitAll(tasks, None, prefix, []) == [prefix];
    }
  }

  lemma NothingReadyLeft(tasks: nat, prefix: seq<nat>)
    requires Feasible(tasks, None, prefix)
    requires ReadyAt(tasks, prefix) == []
    ensures
      var q := Left(Play(tasks, None, prefix).value);
      Sum(q) == 0 && Arrangements(q) == 1
  {
    NothingReady(tasks, None, prefix);
    NothingLeft(Left(Play(tasks, None, prefix).value));
  }

  lemma SomeReadyLeft(tasks: nat, prefix: seq<nat>)
    requires Feasible(tasks, None, prefix)
    requires ReadyAt(tasks, prefix) != []
    ensures
      var q := Left(Play(tasks, None, prefix).value);
      Sum(q) > 0 && InRange(q, ReadyAt(tasks, prefix)) && SumAt(q, ReadyAt(tasks, prefix)) == Sum(q)
  {
    var w := Play(tasks, None, prefix).value;
    PlayIsSized(tasks, None, prefix);
    ReadyCarryEverything(w, tasks, Left(w), tasks);
    assert Left(w)[..tasks] == Left(w);
    assert ReadyTasks(w)[0] in ReadyTasks(w);
    SomethingLeft(w, tasks, ReadyTasks(w)[0]);
  }

  lemma SomethingLeft(w: World, tasks: nat, task: nat)
    requires Sized(w, tasks) && Ready(w, task)
    ensures Sum(Left(w)) > 0
  {
    SumUpdate(Left(w), task, 0);
  }

  lemma OnlyOne(tasks: nat, prefix: seq<nat>)
    ensures |CompleteOf(tasks, None, [prefix])| == if Complete(tasks, None, prefix) then 1 else 0
  {
    assert [prefix][..0] == [];
    hide Complete;
  }

  lemma {:induction false} ThreeEach(n: nat, q: seq<nat>)
    requires |q| == n && forall i :: 0 <= i < n ==> q[i] == 3
    ensures Sum(q) == 3 * n && Arrangements(q) == Power(6, n)
  {
    if n > 0 {
      ThreeEach(n - 1, q[..n - 1]);
      assert Factorial(3) == 6;
    }
  }

  // With n tasks and no cancellation the exploration counts (3n)! / (3!)^n schedules.
  lemma NumberOfSchedules(tasks: nat)
    ensures Feasible(tasks, None, [])
    ensures |CompleteOf(tasks, None, Visit(tasks, None, []))| * Power(6, tasks) == Factorial(3 * tasks)
  {
    RootFeasible(tasks, None);
    CountFrom(tasks, [], Left(Init(tasks)));
    ThreeEach(tasks, Left(Init(tasks)));
  }
}
