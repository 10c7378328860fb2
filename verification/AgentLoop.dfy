/**
 * The plan, act, observe, replan loop: a growing list of mutable steps, a budget, and an arbitrary
 * planner and executor.
 */
module AgentLoop {

  datatype Status = Pending | Done | Failed

  datatype Task = Task(action: string, arg: string)

  datatype Observed = Observed(task: Task, text: string)

  /** The planner sees the steps run so far with their observations: none for the first plan. */
  type Planner = seq<Observed> -> seq<Task>

  /** What the `k`-th tool call of a run answers. */
  type Executor = (nat, Task) -> (bool, string)

  class Step {
    const task: Task
    ghost const position: nat // in the list; keeps the entries apart
    var status: Status
    var observation: string

    constructor (task: Task, ghost position: nat)
      ensures this.task == task && this.position == position && status == Pending && observation == ""
    {
      this.task, this.position, status, observation := task, position, Pending, "";
    }
  }

  // ---- The run as a function -------------------------------------------------------------

  /** The progress reported after `k` steps: each with its observation, in order. */
  function Progress(executor: Executor, todo: seq<Task>, k: nat): seq<Observed>
    requires k <= |todo|
  {
    if k == 0 then []
    else Progress(executor, todo, k - 1) + [Observed(todo[k - 1], executor(k - 1, todo[k - 1]).1)]
  }

  /** The list after step number `k`: a failed step that leaves budget appends a new plan. */
  function AfterStep(planner: Planner, executor: Executor, maxSteps: int, todo: seq<Task>, k: nat): seq<Task> {
    if k < |todo| && !executor(k, todo[k]).0 && k + 1 < maxSteps
    then todo + planner(Progress(executor, todo, k + 1))
    else todo
  }

  /** The final list and the number of steps run, from a list of which `k` entries were executed:
      the loop goes on while there is budget and a next entry. */
  function Outcome(planner: Planner, executor: Executor, maxSteps: int, todo: seq<Task>, k: nat): (seq<Task>, nat)
    decreases maxSteps - k
  {
    if k < maxSteps && k < |todo|
    then Outcome(planner, executor, maxSteps, AfterStep(planner, executor, maxSteps, todo, k), k + 1)
    else (todo, k)
  }

  /** What is reported: each executed step with what its own execution answered. */
  lemma {:induction false} ProgressAt(executor: Executor, todo: seq<Task>, k: nat, i: nat)
    requires i < k <= |todo|
    ensures |Progress(executor, todo, k)| == k
    ensures Progress(executor, todo, k)[i] == Observed(todo[i], executor(i, todo[i]).1)
  {
    if k > 1 { ProgressAt(executor, todo, k - 1, if i < k - 1 then i else 0); }
  }

  /** Each step: while there is budget and a next entry, that entry is run; a failure with budget left
      has the planner, told all progress, append a new plan. */
  lemma OutcomeSteps(planner: Planner, executor: Executor, maxSteps: int, todo: seq<Task>, k: nat)
    ensures Outcome(planner, executor, maxSteps, todo, k) ==
            if k >= maxSteps || k >= |todo| then (todo, k)
            else if executor(k, todo[k]).0 || k + 1 >= maxSteps then Outcome(planner, executor, maxSteps, todo, k + 1)
            else Outcome(planner, executor, maxSteps, todo + planner(Progress(executor, todo, k + 1)), k + 1)
  {
  }

  /** A run that fails a step with budget left really goes on with the new plan behind the old one. */
  lemma {:induction false} ReplanIsRun(planner: Planner, executor: Executor, maxSteps: nat, todo: seq<Task>, k: nat, j: nat)
    requires k <= j < |todo| && j + 1 < maxSteps && !executor(j, todo[j]).0
    requires forall i :: k <= i < j ==> executor(i, todo[i]).0
    ensures var (final, n) := Outcome(planner, executor, maxSteps, todo, k);
            var plan := planner(Progress(executor, todo, j + 1));
            && todo + plan <= final && j + 1 <= n
            && (|todo| + |plan| > j + 1 ==> n > j + 1)
    decreases j - k
  {
    if k < j {
      ReplanIsRun(planner, executor, maxSteps, todo, k + 1, j);
    } else {
      var next := todo + planner(Progress(executor, todo, j + 1));
      assert AfterStep(planner, executor, maxSteps, todo, k) == next;
      RunUsesBudgetOrList(planner, executor, maxSteps, next, j + 1);
    }
  }

  // ---- What a run amounts to -------------------------------------------------------------

  predicate Succeeds(executor: Executor, todo: seq<Task>, i: nat) {
    i < |todo| && executor(i, todo[i]).0
  }

  /** At most the budget is run, at most the list; and either of them is used up. */
  lemma {:induction false} RunUsesBudgetOrList(planner: Planner, executor: Executor, maxSteps: nat, todo: seq<Task>, k: nat)
    requires k <= maxSteps && k <= |todo|
    ensures var (final, n) := Outcome(planner, executor, maxSteps, todo, k);
            && todo <= final && k <= n <= maxSteps && n <= |final|
            && (n == maxSteps || n == |final|)
    decreases maxSteps - k
  {
    if k < maxSteps && k < |todo| {
      RunUsesBudgetOrList(planner, executor, maxSteps, AfterStep(planner, executor, maxSteps, todo, k), k + 1);
    }
  }

  predicate AllSucceed(executor: Executor, todo: seq<Task>, from: nat) {
    forall i :: from <= i < |todo| ==> Succeeds(executor, todo, i)
  }

  lemma {:induction false} DoneIffNoFailure(planner: Planner, executor: Executor, maxSteps: nat, todo: seq<Task>, k: nat)
    requires k <= maxSteps && k <= |todo|
    ensures var (final, n) := Outcome(planner, executor, maxSteps, todo, k);
            n == |final| && AllSucceed(executor, final, k) <==> |todo| <= maxSteps && AllSucceed(executor, todo, k)
    decreases maxSteps - k
  {
    if k < maxSteps && k < |todo| {
      var next := AfterStep(planner, executor, maxSteps, todo, k);
      RunUsesBudgetOrList(planner, executor, maxSteps, next, k + 1);
      DoneIffNoFailure(planner, executor, maxSteps, next, k + 1);
      var final := Outcome(planner, executor, maxSteps, next, k + 1).0;
      assert Succeeds(executor, final, k) <==> Succeeds(executor, todo, k);
    }
  }

  /** A run executes every entry of its list with success iff its first plan fits the budget and
      every step of it succeeds: a run that fails one step is never done, whatever is replanned. */
  lemma DoneIffFirstPlanSucceeds(planner: Planner, executor: Executor, maxSteps: int)
    requires planner([]) != []
    ensures var (final, n) := Outcome(planner, executor, maxSteps, planner([]), 0);
            n == |final| && AllSucceed(executor, final, 0)
            <==> |planner([])| <= maxSteps && AllSucceed(executor, planner([]), 0)
  {
    if maxSteps >= 0 { DoneIffNoFailure(planner, executor, maxSteps, planner([]), 0); }
  }

  // ---- The loop --------------------------------------------------------------------------

  /** Entry `i` as it is once the first `k` entries were executed. */
  ghost predicate Shows(step: Step, executor: Executor, task: Task, i: nat, k: nat)
    reads step
  {
    && step.task == task && step.position == i
    && (if i < k then
          step.status == (if executor(i, task).0 then Done else Failed) && step.observation == executor(i, task).1
        else step.status == Pending)
  }

  ghost predicate Reflects(steps: seq<Step>, executor: Executor, todo: seq<Task>, k: nat)
    reads steps
  {
    && |steps| == |todo| && k <= |todo|
    && forall i {:trigger steps[i]} :: 0 <= i < |steps| ==> Shows(steps[i], executor, todo[i], i, k)
  }

  /** The first pending step is always the one after those executed. */
  method FirstPending(steps: seq<Step>, ghost executor: Executor, ghost todo: seq<Task>, ghost k: nat) returns (index: nat)
    requires Reflects(steps, executor, todo, k)
    ensures index == k
  {
    index := 0;
    while index < |steps| && steps[index].status != Pending
      invariant index <= k
    {
      index := index + 1;
    }
  }

  ghost predicate IsNew(step: Step, task: Task, position: nat)
    reads step
  {
    step.task == task && step.position == position && step.status == Pending
  }

  method NewSteps(tasks: seq<Task>, ghost start: nat) returns (steps: seq<Step>)
    ensures forall i :: 0 <= i < |steps| ==> fresh(steps[i])
    ensures |steps| == |tasks|
    ensures forall i :: 0 <= i < |steps| ==> IsNew(steps[i], tasks[i], start + i)
  {
    steps := [];
    for n := 0 to |tasks|
      invariant |steps| == n
      invariant forall i :: 0 <= i < |steps| ==> fresh(steps[i])
      invariant forall i :: 0 <= i < n ==> IsNew(steps[i], tasks[i], start + i)
    {
      var step := new Step(tasks[n], start + n);
      steps := steps + [step];
    }
  }

  method ReportProgress(steps: seq<Step>, ghost executor: Executor, ghost todo: seq<Task>, k: nat) returns (progress: seq<Observed>)
    requires Reflects(steps, executor, todo, k)
    ensures progress == Progress(executor, todo, k)
  {
    progress := [];
    for i := 0 to |steps|
      invariant progress == Progress(executor, todo, if i < k then i else k)
    {
      if steps[i].status != Pending {
        progress := progress + [Observed(steps[i].task, steps[i].observation)];
      }
    }
  }

  /** Runs the first pending step and records its result in it. */
  method RunStep(steps: seq<Step>, executor: Executor, ghost todo: seq<Task>, k: nat) returns (ok: bool)
    requires Reflects(steps, executor, todo, k) && k < |steps|
    modifies steps[k]
    ensures Reflects(steps, executor, todo, k + 1)
    ensures ok == executor(k, todo[k]).0
  {
    var pending := steps[k];
    var (success, observation) := executor(k, pending.task);
    pending.status := if success then Done else Failed;
    pending.observation := observation;
    ok := success;
  }

  lemma AppendPending(steps: seq<Step>, more: seq<Step>, executor: Executor, todo: seq<Task>, extra: seq<Task>, k: nat)
    requires Reflects(steps, executor, todo, k) && |more| == |extra|
    requires forall i :: 0 <= i < |more| ==> IsNew(more[i], extra[i], |steps| + i)
    ensures Reflects(steps + more, executor, todo + extra, k)
  {
  }

  /** The second plan, as new pending steps behind the old ones. */
  method Replan(planner: Planner, executor: Executor, steps: seq<Step>, ghost todo: seq<Task>, k: nat) returns (next: seq<Step>)
    requires Reflects(steps, executor, todo, k)
    ensures Reflects(next, executor, todo + planner(Progress(executor, todo, k)), k)
    ensures Continues(steps, next)
  {
    var progress := ReportProgress(steps, executor, todo, k);
    var more := NewSteps(planner(progress), |steps|);
    AppendPending(steps, more, executor, todo, planner(progress), k);
    next := steps + more;
  }

  /** `next` is `steps` followed by newly allocated steps. */
  twostate predicate Continues(steps: seq<Step>, new next: seq<Step>) {
    |steps| <= |next|
    && forall i :: 0 <= i < |next| ==> if i < |steps| then next[i] == steps[i] else fresh(next[i])
  }

  /** One turn of the loop: run the next step and, after a failure with budget left, replan. */
  method Turn(planner: Planner, executor: Executor, maxSteps: int, steps: seq<Step>, ghost todo: seq<Task>, k: nat)
    returns (next: seq<Step>)
    requires Reflects(steps, executor, todo, k) && k < |steps|
    modifies steps[k]
    ensures Reflects(next, executor, AfterStep(planner, executor, maxSteps, todo, k), k + 1)
    ensures AfterStep(planner, executor, maxSteps, todo, k) ==
            if !executor(k, todo[k]).0 && k + 1 < maxSteps then todo + planner(Progress(executor, todo, k + 1)) else todo
    ensures Continues(steps, next)
  {
    var ok := RunStep(steps, executor, todo, k);
    next := steps;
    if !ok && k + 1 < maxSteps {
      next := Replan(planner, executor, steps, todo, k + 1);
    }
  }

  lemma DoneMeansSucceeded(steps: seq<Step>, executor: Executor, todo: seq<Task>, k: nat)
    requires Reflects(steps, executor, todo, k)
    ensures (forall i :: 0 <= i < |steps| ==> steps[i].status == Done) <==> k == |todo| && AllSucceed(executor, todo, 0)
  {
    if k < |todo| {
      assert steps[k].status == Pending;
    } else {
      assert forall i :: 0 <= i < |steps| ==> (steps[i].status == Done <==> Succeeds(executor, todo, i));
    }
  }

  method AllDone(steps: seq<Step>) returns (done: bool)
    ensures done <==> forall i :: 0 <= i < |steps| ==> steps[i].status == Done
  {
    for i := 0 to |steps|
      invariant forall j :: 0 <= j < i ==> steps[j].status == Done
    {
      if steps[i].status != Done { return false; }
    }
    return true;
  }

  /** A whole run: `steps` are the entries of the final list, of which the first `stepsRun` were
      executed, each once and in order. It is done only if nothing ever failed. */
  method RunAgent(planner: Planner, executor: Executor, maxSteps: int)
    returns (steps: seq<Step>, done: bool, stepsRun: nat)
    ensures stepsRun == Outcome(planner, executor, maxSteps, planner([]), 0).1
    ensures Reflects(steps, executor, Outcome(planner, executor, maxSteps, planner([]), 0).0, stepsRun)
    ensures done <==> planner([]) != [] && |planner([])| <= maxSteps && AllSucceed(executor, planner([]), 0)
  {
    steps := NewSteps(planner([]), 0);
    stepsRun := 0;
    if steps == [] { return steps, false, 0; }
    ghost var todo, outcome := planner([]), Outcome(planner, executor, maxSteps, planner([]), 0);
    while stepsRun < maxSteps
      invariant forall i :: 0 <= i < |steps| ==> fresh(steps[i])
      invariant Reflects(steps, executor, todo, stepsRun)
      invariant Outcome(planner, executor, maxSteps, todo, stepsRun) == outcome
      decreases maxSteps - stepsRun
    {
      var pending := FirstPending(steps, executor, todo, stepsRun);
      if pending == |steps| { break; }
      steps := Turn(planner, executor, maxSteps, steps, todo, pending);
      todo := AfterStep(planner, executor, maxSteps, todo, stepsRun);
      stepsRun := stepsRun + 1;
    }
    done := AllDone(steps);
    DoneMeansSucceeded(steps, executor, todo, stepsRun);
    DoneIffFirstPlanSucceeds(planner, executor, maxSteps);
  }
}
