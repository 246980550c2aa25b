/**
 The task queue of the event loop as a step machine: any thread pushes at any time; the loop swaps
 the pending tasks out under the lock and then runs that batch without it.
 */
module EventTasks {

  datatype Tasks = Tasks(
    pushed: seq<nat>,     // every task ever pushed, in order
    pending: seq<nat>,    // pending_tasks_
    batch: seq<nat>,      // what the current pass still has to run
    executed: seq<nat>)

  datatype Step = Push(task: nat) | Swap | Run

  function Initial(): Tasks { Tasks([], [], [], []) }

  predicate Enabled(t: Tasks, s: Step) {
    match s
    case Push(_) => true
    case Swap => t.batch == []
    case Run => t.batch != []
  }

  function Next(t: Tasks, s: Step): Tasks
    requires Enabled(t, s)
  {
    match s
    case Push(x) => t.(pushed := t.pushed + [x], pending := t.pending + [x])
    case Swap => t.(pending := [], batch := t.pending)
    case Run => t.(batch := t.batch[1..], executed := t.executed + [t.batch[0]])
  }

  ghost predicate Reaches(t: Tasks, steps: seq<Step>, u: Tasks)
    decreases |steps|
  {
    if steps == [] then t == u
    else Enabled(t, steps[0]) && Reaches(Next(t, steps[0]), steps[1..], u)
  }

  ghost predicate InOrder(t: Tasks) {
    t.executed + t.batch + t.pending == t.pushed
  }

  lemma StepKeeps(t: Tasks, s: Step)
    requires InOrder(t) && Enabled(t, s)
    ensures InOrder(Next(t, s))
    ensures !s.Swap? ==> Next(t, s).executed + Next(t, s).batch == t.executed + t.batch
  {
    match s
    case Push(x) => assert (t.executed + t.batch + t.pending) + [x] == t.executed + t.batch + (t.pending + [x]);
    case Swap => assert t.executed + [] + t.pending == t.executed + t.pending + [];
    case Run =>
      assert t.batch == [t.batch[0]] + t.batch[1..];
      assert Next(t, s).executed + Next(t, s).batch == t.executed + t.batch;
  }

  lemma {:induction false} RunKeeps(t: Tasks, steps: seq<Step>, u: Tasks)
    requires InOrder(t) && Reaches(t, steps, u)
    ensures InOrder(u)
    ensures (forall i :: 0 <= i < |steps| ==> !steps[i].Swap?) ==> u.executed + u.batch == t.executed + t.batch
    decreases |steps|
  {
    hide InOrder, Enabled, Next;
    if steps != [] {
      StepKeeps(t, steps[0]);
      RunKeeps(Next(t, steps[0]), steps[1..], u);
    }
  }

  /** In every interleaving, what was executed, the rest of the batch and what is pending are the
      tasks pushed, in order: none is lost, repeated or overtaken. */
  lemma TasksInOrder(steps: seq<Step>, t: Tasks)
    requires Reaches(Initial(), steps, t)
    ensures t.executed + t.batch + t.pending == t.pushed
  {
    RunKeeps(Initial(), steps, t);
  }

  /** A pass runs only the tasks that were pending when it began; what is pushed meanwhile, even by
      one of them, waits for a later pass. */
  lemma PassIsBounded(t: Tasks, steps: seq<Step>, u: Tasks)
    requires InOrder(t) && t.batch == [] && Reaches(Next(t, Swap), steps, u)
    requires forall i :: 0 <= i < |steps| ==> !steps[i].Swap?
    ensures u.executed + u.batch == t.executed + t.pending
    ensures |u.pushed| - |u.pending| == |t.pushed|
  {
    StepKeeps(t, Swap);
    RunKeeps(Next(t, Swap), steps, u);
  }

  /** And it can run all of them: swapping and running through is one call of `process_tasks`. */
  lemma WholePass(t: Tasks)
    requires t.batch == []
    ensures Reaches(t, [Swap] + seq(|t.pending|, _ => Run), t.(pending := [], executed := t.executed + t.pending))
  {
    hide Reaches;
    var u := Next(t, Swap);
    RunAll(u);
    StepThen(t, Swap, seq(|u.batch|, _ => Run), u.(batch := [], executed := u.executed + u.batch));
  }

  lemma {:induction false} RunAll(t: Tasks)
    ensures Reaches(t, seq(|t.batch|, _ => Run), t.(batch := [], executed := t.executed + t.batch))
    decreases |t.batch|
  {
    hide Reaches;
    var steps: seq<Step> := seq(|t.batch|, _ => Run);
    var end := t.(batch := [], executed := t.executed + t.batch);
    if t.batch == [] {
      assert end == t && steps == [];
      Stays(t);
    } else {
      var u := Next(t, Run);
      RunAll(u);
      assert u.executed + u.batch == t.executed + t.batch;
      assert steps == [Run] + seq(|u.batch|, _ => Run);
      StepThen(t, Run, seq(|u.batch|, _ => Run), end);
    }
  }

  lemma Stays(t: Tasks)
    ensures Reaches(t, [], t)
  {
  }

  lemma StepThen(t: Tasks, s: Step, rest: seq<Step>, u: Tasks)
    requires Enabled(t, s) && Reaches(Next(t, s), rest, u)
    ensures Reaches(t, [s] + rest, u)
  {
    hide Enabled, Next;
    assert ([s] + rest)[1..] == rest;
  }
}
