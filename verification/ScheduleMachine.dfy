/** The oracle of the schedule explorer: tasks that each read a shared counter,
    write it back incremented and finish, one quantum at a time. */
module ScheduleMachine {
  import opened Options

  /** `phase[i]` counts the quanta task `i` has had, 3 being the terminal phase. */
  datatype World = World(
    phase: seq<nat>,
    seen: seq<int>,
    value: int,
    finalizers: seq<nat>,
    cancelled: bool,
    steps: nat)

  function Init(tasks: nat): World {
    World(seq(tasks, _ => 0), seq(tasks, _ => 0), 0, [], false, 0)
  }

  ghost predicate Sized(w: World, tasks: nat) {
    && |w.phase| == |w.seen| == tasks
    && forall i :: 0 <= i < tasks ==> w.phase[i] <= 3
  }

  predicate Ready(w: World, task: nat) {
    task < |w.phase| && w.phase[task] != 3
  }

  // Cancellation of task 0 is requested just before the quantum numbered `cancelAt`.
  predicate CancelRequested(cancelAt: Option<nat>, step: nat) {
    cancelAt.Some? && cancelAt.value <= step
  }

  // One quantum of a ready task.
  function Quantum(cancelAt: Option<nat>, w: World, task: nat): World
    requires Ready(w, task) && |w.seen| == |w.phase|
  {
    var next := w.(steps := w.steps + 1);
    if CancelRequested(cancelAt, w.steps) && task == 0 then
      next.(cancelled := true,
            finalizers := if w.phase[0] != 0 then w.finalizers + [0] else w.finalizers,
            phase := w.phase[0 := 3])
    else if w.phase[task] == 0 then
      next.(seen := w.seen[task := w.value], phase := w.phase[task := 1])
    else if w.phase[task] == 1 then
      next.(value := w.seen[task] + 1, phase := w.phase[task := 2])
    else
      next.(phase := w.phase[task := 3], finalizers := w.finalizers + [task])
  }

  // The state after a prefix of choices, if every choice was ready when made.
  function Play(tasks: nat, cancelAt: Option<nat>, prefix: seq<nat>): (r: Option<World>)
    ensures r.Some? ==> |r.value.phase| == |r.value.seen| == tasks
  {
    if prefix == [] then Some(Init(tasks))
    else
      var before := Play(tasks, cancelAt, prefix[..|prefix| - 1]);
      var choice := prefix[|prefix| - 1];
      if before.Some? && Ready(before.value, choice) then Some(Quantum(cancelAt, before.value, choice)) else None
  }

  predicate Feasible(tasks: nat, cancelAt: Option<nat>, prefix: seq<nat>) {
    Play(tasks, cancelAt, prefix).Some?
  }

  predicate Complete(tasks: nat, cancelAt: Option<nat>, prefix: seq<nat>) {
    && Feasible(tasks, cancelAt, prefix)
    && forall i :: 0 <= i < tasks ==> Play(tasks, cancelAt, prefix).value.phase[i] == 3
  }

  lemma PlayExtends(tasks: nat, cancelAt: Option<nat>, prefix: seq<nat>, choice: nat)
    requires Feasible(tasks, cancelAt, prefix)
    ensures
      var w := Play(tasks, cancelAt, prefix).value;
      Play(tasks, cancelAt, prefix + [choice]) ==
        if Ready(w, choice) then Some(Quantum(cancelAt, w, choice)) else None
  {
    assert (prefix + [choice])[..|prefix|] == prefix;
  }

  lemma {:induction false} PrefixFeasible(tasks: nat, cancelAt: Option<nat>, prefix: seq<nat>, k: nat)
    requires Feasible(tasks, cancelAt, prefix) && k <= |prefix|
    ensures Feasible(tasks, cancelAt, prefix[..k])
  {
    if k == |prefix| {
      assert prefix[..k] == prefix;
    } else {
      PrefixFeasible(tasks, cancelAt, prefix[..|prefix| - 1], k);
      assert prefix[..|prefix| - 1][..k] == prefix[..k];
    }
  }

  lemma {:induction false} PlayIsSized(tasks: nat, cancelAt: Option<nat>, prefix: seq<nat>)
    requires Feasible(tasks, cancelAt, prefix)
    ensures Sized(Play(tasks, cancelAt, prefix).value, tasks)
    ensures Play(tasks, cancelAt, prefix).value.steps == |prefix|
  {
    if prefix != [] {
      PlayIsSized(tasks, cancelAt, prefix[..|prefix| - 1]);
    }
  }

  lemma InfeasiblePrefix(tasks: nat, cancelAt: Option<nat>, prefix: seq<nat>, k: nat)
    requires k <= |prefix| && !Feasible(tasks, cancelAt, prefix[..k])
    ensures !Feasible(tasks, cancelAt, prefix)
  {
    if Feasible(tasks, cancelAt, prefix) {
      PrefixFeasible(tasks, cancelAt, prefix, k);
    }
  }

  /** The oracle's tables, updated in place by one replay. */
  class Model {
    const phase: array<nat>
    const seen: array<int>
    var value: int
    var finalizers: seq<nat>
    var taskCancelled: bool
    var step: nat

    ghost predicate Valid()
      reads this
    {
      phase.Length == seen.Length && (phase as object) != seen
    }

    ghost function Now(): World
      reads this, phase, seen
    {
      World(phase[..], seen[..], value, finalizers, taskCancelled, step)
    }

    constructor (tasks: nat)
      ensures Valid() && fresh(phase) && fresh(seen)
      ensures Now() == Init(tasks)
    {
      phase := new nat[tasks](_ => 0);
      seen := new int[tasks](_ => 0);
      value, finalizers, taskCancelled, step := 0, [], false, 0;
    }

    method Advance(task: nat, cancelled: bool, ghost cancelAt: Option<nat>)
      requires Valid() && Ready(Now(), task)
      requires cancelled <==> CancelRequested(cancelAt, step)
      modifies this, phase, seen
      ensures Valid() && Now() == Quantum(cancelAt, old(Now()), task)
    {
      if cancelled && task == 0 {
        taskCancelled := true;
        if phase[0] != 0 {
          finalizers := finalizers + [0];
        }
        phase[0] := 3;
      } else if phase[task] == 0 {
        seen[task] := value;
        phase[task] := 1;
      } else if phase[task] == 1 {
        value := seen[task] + 1;
        phase[task] := 2;
      } else {
        phase[task] := 3;
        finalizers := finalizers + [task];
      }
      step := step + 1;
    }
  }

  // Replaying a prefix from the start, or nothing if some choice was not ready.
  method Replay(tasks: nat, cancelAt: Option<nat>, prefix: seq<nat>) returns (outcome: Option<World>)
    ensures outcome == Play(tasks, cancelAt, prefix)
  {
    var model := new Model(tasks);
    var cancelled := false;
    assert prefix[..0] == [];
    assert Play(tasks, cancelAt, []) == Some(model.Now());
    hide Play, Quantum, Init;
    for step := 0 to |prefix|
      invariant model.Valid() && model.step == step
      invariant fresh(model) && fresh(model.phase) && fresh(model.seen)
      invariant Play(tasks, cancelAt, prefix[..step]) == Some(model.Now())
      invariant cancelled <==> cancelAt.Some? && cancelAt.value < step
    {
      var task := prefix[step];
      assert prefix[..step + 1] == prefix[..step] + [task];
      PlayExtends(tasks, cancelAt, prefix[..step], task);
      if cancelAt == Some(step) {
        cancelled := true;
      }
      if task >= tasks || model.phase[task] == 3 {
        InfeasiblePrefix(tasks, cancelAt, prefix, step + 1);
        return None;
      }
      model.Advance(task, cancelled, cancelAt);
    }
    assert prefix[..|prefix|] == prefix;
    var phases: seq<nat>, seen := model.phase[..], model.seen[..];
    return Some(World(phases, seen, model.value, model.finalizers, model.taskCancelled, model.step));
  }
}
