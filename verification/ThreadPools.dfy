/**
 The priority thread pool: a queue kept as all high-priority tasks before all others, workers
 that take from its front, and shutdown.  Each locked section, the store to the stop flag and
 each execution of a task is one step; any interleaving of the workers is a run.
 */
module ThreadPools {

  datatype Priority = LOW | NORMAL | HIGH

  datatype Task = Task(id: nat, priority: Priority)

  predicate High(t: Task) { t.priority == HIGH }

  /** The number of leading high-priority tasks. */
  function HighPrefix(q: seq<Task>): (n: nat)
    ensures n <= |q| && (forall i :: 0 <= i < n ==> High(q[i])) && (n < |q| ==> !High(q[n]))
  {
    if q == [] || !High(q[0]) then 0 else 1 + HighPrefix(q[1..])
  }

  /** Where a task goes: behind the leading high-priority tasks, or to the end. */
  function Insert(q: seq<Task>, t: Task): (r: seq<Task>) {
    if High(t) then q[..HighPrefix(q)] + [t] + q[HighPrefix(q)..] else q + [t]
  }

  /** The first moving loop: takes the leading high-priority tasks. */
  method TakeHigh(tasks: seq<Task>) returns (front: seq<Task>, rest: seq<Task>)
    ensures front == tasks[..HighPrefix(tasks)] && rest == tasks[HighPrefix(tasks)..]
  {
    front, rest := [], tasks;
    while rest != [] && High(rest[0])
      invariant front + rest == tasks && |front| + HighPrefix(rest) == HighPrefix(tasks)
      decreases |rest|
    {
      MoveFirst(front, rest);
      front, rest := front + [rest[0]], rest[1..];
    }
  }

  /** The second one: moves everything that is left. */
  method MoveAll(front: seq<Task>, tasks: seq<Task>) returns (all: seq<Task>)
    ensures all == front + tasks
  {
    all := front;
    var rest := tasks;
    while rest != []
      invariant all + rest == front + tasks
      decreases |rest|
    {
      MoveFirst(all, rest);
      all, rest := all + [rest[0]], rest[1..];
    }
  }

  lemma MoveFirst(a: seq<Task>, b: seq<Task>)
    requires b != []
    ensures (a + [b[0]]) + b[1..] == a + b
  {
  }

  /** Moves the queue through a temporary one around a high-priority task. */
  method Rebuild(tasks: seq<Task>, t: Task) returns (tmp: seq<Task>)
    requires High(t)
    ensures tmp == Insert(tasks, t)
  {
    hide HighPrefix;
    var front, rest := TakeHigh(tasks);
    tmp := MoveAll(front + [t], rest);
  }

  datatype Turn = Leave | Got(task: Task)

  /** The shared state behind the queue mutex, and the locked sections over it. */
  class ThreadPool {
    var tasks: seq<Task>
    var stop: bool

    constructor ()
      ensures tasks == [] && !stop
    {
      tasks, stop := [], false;
    }

    /** A high-priority task goes behind the leading ones of its kind, any other to the end. */
    method AppendPriority(t: Task) returns (ghost k: nat)
      modifies this`tasks
      ensures tasks == Insert(old(tasks), t)
      ensures k <= |old(tasks)| && tasks == old(tasks)[..k] + [t] + old(tasks)[k..]
      ensures t.priority != HIGH ==> k == |old(tasks)|
      ensures t.priority == HIGH ==> BehindHigh(old(tasks), k)
    {
      k := InsertPlace(tasks, t);
      if High(t) { tasks := Rebuild(tasks, t); } else { tasks := tasks + [t]; }
    }

    /** A worker's locked section once its wait is over: leave only on an empty queue. */
    method WorkerTurn() returns (r: Turn)
      requires stop || tasks != []
      modifies this`tasks
      ensures r.Leave? <==> stop && old(tasks) == []
      ensures r.Leave? ==> tasks == old(tasks)
      ensures r.Got? ==> old(tasks) == [r.task] + tasks
    {
      if stop && tasks == [] { return Leave; }
      r := Got(tasks[0]);
      tasks := tasks[1..];
    }
  }

  /* ---- the machine ---- */

  datatype Worker = Waiting | Running(task: Task) | Exited

  datatype Pool = Pool(
    queue: seq<Task>,
    stop: bool,
    workers: seq<Worker>,
    submitted: seq<Task>,   // every accepted task, in order
    taken: seq<Task>,       // every dequeued task, in order
    executed: seq<Task>,    // every task passed to execute(), in order
    discarded: seq<Task>)   // dropped by shutdown_now

  datatype Step =
    | Submit(t: Task)
    | Stop
    | Discard
    | Take(w: nat)
    | Execute(w: nat)
    | Exit(w: nat)

  function Initial(n: nat): Pool {
    Pool([], false, seq(n, _ => Waiting), [], [], [], [])
  }

  predicate Enabled(p: Pool, s: Step) {
    match s
    case Submit(_) => true
    case Stop => true
    case Discard => p.stop
    case Take(w) => w < |p.workers| && p.workers[w].Waiting? && p.queue != []
    case Execute(w) => w < |p.workers| && p.workers[w].Running?
    case Exit(w) => w < |p.workers| && p.workers[w].Waiting? && p.stop && p.queue == []
  }

  function Next(p: Pool, s: Step): Pool
    requires Enabled(p, s)
  {
    match s
    case Submit(t) => p.(queue := Insert(p.queue, t), submitted := p.submitted + [t])
    case Stop => p.(stop := true)
    case Discard => p.(queue := [], discarded := p.discarded + p.queue)
    case Take(w) => p.(queue := p.queue[1..], taken := p.taken + [p.queue[0]],
                       workers := p.workers[w := Running(p.queue[0])])
    case Execute(w) => p.(executed := p.executed + [p.workers[w].task], workers := p.workers[w := Waiting])
    case Exit(w) => p.(workers := p.workers[w := Exited])
  }

  ghost predicate Reaches(p: Pool, steps: seq<Step>, q: Pool)
    decreases |steps|
  {
    if steps == [] then p == q
    else Enabled(p, steps[0]) && Reaches(Next(p, steps[0]), steps[1..], q)
  }

  lemma {:induction false} ReachesSplit(p: Pool, a: seq<Step>, b: seq<Step>, q: Pool) returns (m: Pool)
    requires Reaches(p, a + b, q)
    ensures Reaches(p, a, m) && Reaches(m, b, q)
    decreases |a|
  {
    if a == [] {
      m := p;
      assert a + b == b;
    } else {
      assert (a + b)[0] == a[0] && (a + b)[1..] == a[1..] + b;
      m := ReachesSplit(Next(p, a[0]), a[1..], b, q);
    }
  }

  /* ---- order ---- */

  function OfClass(q: seq<Task>, high: bool): seq<Task> {
    if q == [] then [] else (if High(q[0]) == high then [q[0]] else []) + OfClass(q[1..], high)
  }

  lemma {:induction false} OfClassConcat(a: seq<Task>, b: seq<Task>, high: bool)
    ensures OfClass(a + b, high) == OfClass(a, high) + OfClass(b, high)
    decreases |a|
  {
    if a == [] {
      assert a + b == b;
    } else {
      assert (a + b)[0] == a[0] && (a + b)[1..] == a[1..] + b;
      OfClassConcat(a[1..], b, high);
    }
  }

  /** All high-priority tasks come first. */
  predicate Ordered(q: seq<Task>) {
    forall i, j :: 0 <= i < j < |q| && High(q[j]) ==> High(q[i])
  }

  lemma {:induction false} OfClassNone(q: seq<Task>)
    requires forall i :: 0 <= i < |q| ==> !High(q[i])
    ensures OfClass(q, true) == []
    decreases |q|
  {
    if q != [] { OfClassNone(q[1..]); }
  }

  lemma BehindPrefix(q: seq<Task>)
    requires Ordered(q)
    ensures forall i :: HighPrefix(q) <= i < |q| ==> !High(q[i])
  {
    var n := HighPrefix(q);
    if n < |q| { assert !High(q[n]); }
  }

  lemma InsertOrdered(q: seq<Task>, t: Task)
    requires Ordered(q)
    ensures Ordered(Insert(q, t))
  {
    BehindPrefix(q);
  }

  lemma InsertCounts(q: seq<Task>, t: Task)
    ensures multiset(Insert(q, t)) == multiset(q) + multiset{t}
  {
    var n := HighPrefix(q);
    assert q == q[..n] + q[n..];
  }

  /** Inserting appends to the task's own class and leaves the other one alone. */
  lemma InsertAppends(q: seq<Task>, t: Task, high: bool)
    requires Ordered(q)
    ensures OfClass(Insert(q, t), high) == OfClass(q, high) + OfClass([t], high)
  {
    hide HighPrefix;
    if High(t) {
      var n := HighPrefix(q);
      var a, b := q[..n], q[n..];
      BehindPrefix(q);
      OfClassNone(b);
      OfClassConcat(a + [t], b, high);
      OfClassConcat(a, [t], high);
      OfClassConcat(a, b, high);
      assert q == a + b;
      if !high { assert OfClass([t], high) == []; }
    } else {
      OfClassConcat(q, [t], high);
    }
  }

  /* ---- run invariants ---- */

  function HandOf(w: Worker): multiset<Task> {
    if w.Running? then multiset{w.task} else multiset{}
  }

  /** The tasks that workers have taken and not yet executed. */
  function InHand(ws: seq<Worker>): multiset<Task> {
    if ws == [] then multiset{} else HandOf(ws[0]) + InHand(ws[1..])
  }

  lemma Regroup(a: multiset<Task>, b: multiset<Task>, c: multiset<Task>, d: multiset<Task>, e: multiset<Task>)
    requires b + c == d + e
    ensures (a + b) + c == (a + d) + e
  {
    assert (a + b) + c == a + (b + c);
  }

  lemma {:induction false} InHandUpdate(ws: seq<Worker>, i: nat, w: Worker)
    requires i < |ws|
    ensures InHand(ws[i := w]) + HandOf(ws[i]) == InHand(ws) + HandOf(w)
    decreases |ws|
  {
    hide HandOf;
    if i > 0 {
      InHandUpdate(ws[1..], i - 1, w);
      assert ws[i := w][1..] == ws[1..][i - 1 := w];
      assert InHand(ws[i := w]) == HandOf(ws[0]) + InHand(ws[1..][i - 1 := w]);
      assert InHand(ws) == HandOf(ws[0]) + InHand(ws[1..]);
      Regroup(HandOf(ws[0]), InHand(ws[1..][i - 1 := w]), HandOf(ws[i]), InHand(ws[1..]), HandOf(w));
    } else {
      assert ws[0 := w][1..] == ws[1..];
    }
  }

  ghost predicate Inv(p: Pool) {
    && Ordered(p.queue)
    && multiset(p.submitted) == multiset(p.taken) + multiset(p.queue) + multiset(p.discarded)
    && multiset(p.taken) == multiset(p.executed) + InHand(p.workers)
    && (p.discarded == [] ==>
          forall high :: OfClass(p.submitted, high) == OfClass(p.taken, high) + OfClass(p.queue, high))
  }

  lemma SubmitKeeps(p: Pool, t: Task)
    requires Inv(p)
    ensures Inv(Next(p, Submit(t)))
  {
    hide Ordered, OfClass, Insert;
    InsertOrdered(p.queue, t);
    InsertCounts(p.queue, t);
    forall high: bool
      ensures p.discarded == [] ==>
                OfClass(p.submitted + [t], high) == OfClass(p.taken, high) + OfClass(Insert(p.queue, t), high)
    {
      InsertAppends(p.queue, t, high);
      OfClassConcat(p.submitted, [t], high);
    }
  }

  lemma TakeKeeps(p: Pool, w: nat)
    requires Inv(p) && Enabled(p, Take(w))
    ensures Inv(Next(p, Take(w)))
  {
    hide OfClass, InHand;
    var t, rest := p.queue[0], p.queue[1..];
    assert p.queue == [t] + rest;
    InHandUpdate(p.workers, w, Running(t));
    assert InHand(p.workers[w := Running(t)]) == InHand(p.workers) + multiset{t};
    assert multiset(p.taken + [t]) == multiset(p.taken) + multiset{t};
    assert multiset(p.queue) == multiset{t} + multiset(rest);
    assert Ordered(rest);
    forall high: bool
      ensures p.discarded == [] ==> OfClass(p.submitted, high) == OfClass(p.taken + [t], high) + OfClass(rest, high)
    {
      OfClassConcat([t], rest, high);
      OfClassConcat(p.taken, [t], high);
    }
  }

  lemma DiscardKeeps(p: Pool)
    requires Inv(p)
    ensures Inv(p.(queue := [], discarded := p.discarded + p.queue))
  {
    hide OfClass, InHand;
    if p.discarded + p.queue == [] { assert p.queue == []; }
  }

  lemma ExecuteKeeps(p: Pool, w: nat)
    requires Inv(p) && Enabled(p, Execute(w))
    ensures Inv(Next(p, Execute(w)))
  {
    hide OfClass, InHand, Ordered;
    var t := p.workers[w].task;
    InHandUpdate(p.workers, w, Waiting);
    AddNothing(InHand(p.workers));
    assert InHand(p.workers[w := Waiting]) + multiset{t} == InHand(p.workers);
    assert multiset(p.executed + [t]) == multiset(p.executed) + multiset{t};
  }

  lemma ExitKeeps(p: Pool, w: nat)
    requires Inv(p) && Enabled(p, Exit(w))
    ensures Inv(Next(p, Exit(w)))
  {
    hide OfClass, InHand, Ordered;
    InHandUpdate(p.workers, w, Exited);
    AddNothing(InHand(p.workers));
    AddNothing(InHand(p.workers[w := Exited]));
  }

  lemma AddNothing(m: multiset<Task>)
    ensures m + multiset{} == m
  {
  }

  lemma StepKeeps(p: Pool, s: Step)
    requires Inv(p) && Enabled(p, s)
    ensures Inv(Next(p, s))
  {
    hide OfClass, InHand, Ordered, Insert;
    match s
    case Submit(t) => SubmitKeeps(p, t);
    case Stop =>
    case Discard => DiscardKeeps(p);
    case Take(w) => TakeKeeps(p, w);
    case Execute(w) => ExecuteKeeps(p, w);
    case Exit(w) => ExitKeeps(p, w);
  }

  lemma {:induction false} RunKeeps(p: Pool, steps: seq<Step>, q: Pool)
    requires Inv(p) && Reaches(p, steps, q)
    ensures Inv(q) && |q.workers| == |p.workers|
    decreases |steps|
  {
    hide Inv;
    if steps != [] {
      StepKeeps(p, steps[0]);
      RunKeeps(Next(p, steps[0]), steps[1..], q);
    }
  }

  lemma {:induction false} NobodyBusy(ws: seq<Worker>)
    requires forall i :: 0 <= i < |ws| ==> !ws[i].Running?
    ensures InHand(ws) == multiset{}
    decreases |ws|
  {
    if ws != [] { NobodyBusy(ws[1..]); }
  }

  lemma InitialHolds(n: nat)
    ensures Inv(Initial(n))
  {
    NobodyBusy(Initial(n).workers);
  }

  /** In every reachable state no other task is in front of a high-priority one, so the task taken
      next is a high-priority one whenever one waits; and until something is discarded, each class
      is taken in the order of submission. */
  lemma PriorityOrder(n: nat, steps: seq<Step>, p: Pool)
    requires Reaches(Initial(n), steps, p)
    ensures Ordered(p.queue)
    ensures (exists t :: t in p.queue && High(t)) ==> High(p.queue[0])
    ensures p.discarded == [] ==>
              forall high :: OfClass(p.submitted, high) == OfClass(p.taken, high) + OfClass(p.queue, high)
    ensures multiset(p.submitted) ==
            multiset(p.executed) + InHand(p.workers) + multiset(p.queue) + multiset(p.discarded)
  {
    hide Reaches, OfClass, InHand;
    InitialHolds(n);
    RunKeeps(Initial(n), steps, p);
  }

  /** The tasks of a sequence that have exactly this priority, or exactly not, in order. */
  function WithHigh(q: seq<Task>, high: bool): seq<Task> {
    if q == [] then []
    else if (q[0].priority == HIGH) == high then [q[0]] + WithHigh(q[1..], high)
    else WithHigh(q[1..], high)
  }

  lemma {:induction false} ClassByPriority(q: seq<Task>, high: bool)
    ensures OfClass(q, high) == WithHigh(q, high)
    decreases |q|
  {
    if q != [] { ClassByPriority(q[1..], high); }
  }

  /** In terms of the priorities: no NORMAL or LOW task is ever in front of a HIGH one, and until
      something is discarded HIGH tasks are taken in the order of submission, and so are all others
      together. */
  lemma HighFirst(n: nat, steps: seq<Step>, p: Pool)
    requires Reaches(Initial(n), steps, p)
    ensures forall i, j :: 0 <= i < j < |p.queue| && p.queue[j].priority == HIGH ==> p.queue[i].priority == HIGH
    ensures p.discarded == [] ==>
              forall high :: WithHigh(p.submitted, high) == WithHigh(p.taken, high) + WithHigh(p.queue, high)
  {
    hide Reaches, InHand, OfClass, WithHigh;
    PriorityOrder(n, steps, p);
    forall high: bool
      ensures p.discarded == [] ==>
                WithHigh(p.submitted, high) == WithHigh(p.taken, high) + WithHigh(p.queue, high)
    {
      ClassByPriority(p.submitted, high);
      ClassByPriority(p.taken, high);
      ClassByPriority(p.queue, high);
    }
  }

  /** The first `k` tasks are HIGH and the next one, if any, is not. */
  predicate BehindHigh(q: seq<Task>, k: nat)
    requires k <= |q|
  {
    (forall i :: 0 <= i < k ==> q[i].priority == HIGH) && (k < |q| ==> q[k].priority != HIGH)
  }

  /** Where a task goes: a HIGH one in front of the first that is not, any other to the end. */
  lemma InsertPlace(q: seq<Task>, t: Task) returns (k: nat)
    ensures k <= |q| && Insert(q, t) == q[..k] + [t] + q[k..]
    ensures t.priority != HIGH ==> k == |q|
    ensures t.priority == HIGH ==> BehindHigh(q, k)
  {
    k := if t.priority == HIGH then HighPrefix(q) else |q|;
    assert q[..|q|] + [t] + q[|q|..] == q + [t];
  }

  /* ---- shutdown_now ---- */

  /** What a run does to the accounts: everything executed was executed before, in a worker's hand, in
      the queue, or submitted on the way. */
  lemma {:induction false} RunAccounts(p: Pool, steps: seq<Step>, q: Pool)
    requires Inv(p) && Reaches(p, steps, q)
    ensures multiset(q.executed)
            <= multiset(p.executed) + InHand(p.workers) + multiset(p.queue) + multiset(Submissions(steps))
    decreases |steps|
  {
    RunKeeps(p, steps, q);
    Submitted(p, steps, q);
    DiscardsGrow(p, steps, q);
    AccountsAdd(multiset(q.executed), InHand(q.workers), multiset(q.queue), multiset(q.discarded),
                multiset(p.executed), InHand(p.workers), multiset(p.queue), multiset(p.discarded),
                multiset(Submissions(steps)));
  }

  lemma AccountsAdd(ex': multiset<Task>, hand': multiset<Task>, queue': multiset<Task>, disc': multiset<Task>,
                    ex: multiset<Task>, hand: multiset<Task>, queue: multiset<Task>, disc: multiset<Task>,
                    subs: multiset<Task>)
    requires ex' + hand' + queue' + disc' == ex + hand + queue + disc + subs && disc <= disc'
    ensures ex' <= ex + hand + queue + subs
  {
    forall x: Task
      ensures ex'[x] <= (ex + hand + queue + subs)[x]
    {
      assert (ex' + hand' + queue' + disc')[x] == (ex + hand + queue + disc + subs)[x];
    }
  }

  lemma {:induction false} Submitted(p: Pool, steps: seq<Step>, q: Pool)
    requires Reaches(p, steps, q)
    ensures q.submitted == p.submitted + Submissions(steps)
    decreases |steps|
  {
    hide Insert;
    if steps != [] { Submitted(Next(p, steps[0]), steps[1..], q); }
  }

  lemma {:induction false} DiscardsGrow(p: Pool, steps: seq<Step>, q: Pool)
    requires Reaches(p, steps, q)
    ensures multiset(p.discarded) <= multiset(q.discarded)
    decreases |steps|
  {
    hide Insert;
    if steps != [] { DiscardsGrow(Next(p, steps[0]), steps[1..], q); }
  }

  /** No task that waits when shutdown_now empties the queue is ever executed: what runs afterwards was
      in a worker's hand or is submitted later. */
  lemma DiscardedNeverRuns(p: Pool, steps: seq<Step>, q: Pool)
    requires Inv(p) && p.stop && Reaches(Next(p, Discard), steps, q)
    ensures Next(p, Discard).queue == []
    ensures multiset(q.executed) <= multiset(p.executed) + InHand(p.workers) + multiset(Submissions(steps))
  {
    hide Inv, Reaches, InHand;
    StepKeeps(p, Discard);
    RunAccounts(Next(p, Discard), steps, q);
    assert multiset(p.executed) + InHand(p.workers) + multiset([]) == multiset(p.executed) + InHand(p.workers);
  }

  /* ---- the workers can always go on ---- */

  /** A waiting worker has something to do iff the pool is stopped or a task waits: it leaves iff it is
      stopped with nothing left, and takes a task otherwise. */
  lemma WakesIff(p: Pool, w: nat)
    requires w < |p.workers| && p.workers[w].Waiting?
    ensures Enabled(p, Take(w)) || Enabled(p, Exit(w)) <==> p.stop || p.queue != []
    ensures Enabled(p, Exit(w)) <==> p.stop && p.queue == []
  {
  }

  /** Work left until everybody has gone. */
  function Remaining(ws: seq<Worker>): nat {
    if ws == [] then 0
    else (match ws[0] case Running(_) => 2 case Waiting => 1 case Exited => 0) + Remaining(ws[1..])
  }

  lemma {:induction false} RemainingUpdate(ws: seq<Worker>, i: nat, w: Worker)
    requires i < |ws|
    ensures Remaining(ws[i := w]) + Remaining([ws[i]]) == Remaining(ws) + Remaining([w])
    decreases |ws|
  {
    if i > 0 {
      RemainingUpdate(ws[1..], i - 1, w);
      assert ws[i := w][1..] == ws[1..][i - 1 := w];
    } else {
      assert ws[0 := w][1..] == ws[1..];
    }
  }

  /** From every stopped state with at least one worker still there, or nothing queued, the workers on
      their own can run everything and leave. */
  lemma {:induction false} ShutdownCanComplete(p: Pool) returns (steps: seq<Step>, q: Pool)
    requires p.stop && (p.queue == [] || !AllExited(p))
    ensures Reaches(p, steps, q) && AllExited(q) && q.queue == []
    ensures forall s :: s in steps ==> s.Take? || s.Execute? || s.Exit?
    decreases 2 * |p.queue| + Remaining(p.workers)
  {
    hide Reaches;
    if AllExited(p) {
      steps, q := [], p;
      assert Reaches(p, [], p) by { StaysPut(p); }
    } else {
      var w :| 0 <= w < |p.workers| && !p.workers[w].Exited?;
      var s := if p.workers[w].Running? then Execute(w) else if p.queue != [] then Take(w) else Exit(w);
      var m := Next(p, s);
      RemainingUpdate(p.workers, w, m.workers[w]);
      assert s.Exit? || !m.workers[w].Exited?;
      var more;
      more, q := ShutdownCanComplete(m);
      steps := [s] + more;
      StepThen(p, s, more, q);
    }
  }

  lemma StaysPut(p: Pool)
    ensures Reaches(p, [], p)
  {
  }

  lemma StepThen(p: Pool, s: Step, rest: seq<Step>, q: Pool)
    requires Enabled(p, s) && Reaches(Next(p, s), rest, q)
    ensures Reaches(p, [s] + rest, q)
  {
    hide Enabled, Next;
    assert ([s] + rest)[1..] == rest;
  }

  /* ---- graceful shutdown ---- */

  ghost predicate AllExited(p: Pool) {
    forall i :: 0 <= i < |p.workers| ==> p.workers[i].Exited?
  }

  function Submissions(steps: seq<Step>): seq<Task> {
    if steps == [] then []
    else (if steps[0].Submit? then [steps[0].t] else []) + Submissions(steps[1..])
  }

  function InsertAll(q: seq<Task>, ts: seq<Task>): seq<Task>
    decreases |ts|
  {
    if ts == [] then q else InsertAll(Insert(q, ts[0]), ts[1..])
  }

  lemma OnlySubmissions(p: Pool, s: Step)
    requires AllExited(p) && Enabled(p, s)
    ensures s.Submit? || s.Stop? || s.Discard?
  {
  }

  /** Once nobody is left, the queue only collects what is still submitted. */
  lemma {:induction false} NobodyLeft(p: Pool, steps: seq<Step>, q: Pool)
    requires Reaches(p, steps, q) && AllExited(p) && forall s :: s in steps ==> !s.Discard?
    ensures AllExited(q) && q.queue == InsertAll(p.queue, Submissions(steps)) && q.discarded == p.discarded
    decreases |steps|
  {
    hide Insert;
    if steps != [] {
      assert steps[0] in steps && forall s :: s in steps[1..] ==> s in steps;
      OnlySubmissions(p, steps[0]);
      NobodyLeft(Next(p, steps[0]), steps[1..], q);
      if steps[0].Submit? {
        var t := steps[0].t;
        assert ([t] + Submissions(steps[1..]))[1..] == Submissions(steps[1..]);
      } else {
        assert [] + Submissions(steps[1..]) == Submissions(steps[1..]);
      }
    }
  }

  lemma {:induction false} InsertAllCounts(q: seq<Task>, ts: seq<Task>)
    ensures |InsertAll(q, ts)| == |q| + |ts|
    decreases |ts|
  {
    if ts != [] { InsertAllCounts(Insert(q, ts[0]), ts[1..]); }
  }

  /** The end of a run without shutdown_now, cut at the exit of the last worker: the tasks left in
      the queue are exactly those submitted after that exit.  So the queue is empty iff nothing was
      submitted then, and in that case every accepted task was executed exactly once. */
  lemma ShutdownExact(n: nat, before: seq<Step>, w: nat, after: seq<Step>, p: Pool)
    requires Reaches(Initial(n), before + [Exit(w)] + after, p)
    requires forall s :: s in before + after ==> !s.Discard?
    requires forall m :: Reaches(Initial(n), before + [Exit(w)], m) ==> AllExited(m)
    ensures AllExited(p) && p.queue == InsertAll([], Submissions(after))
    ensures p.queue == [] <==> Submissions(after) == []
    ensures p.queue == [] ==> multiset(p.executed) == multiset(p.submitted)
  {
    hide Next, Enabled;
    var m := ReachesSplit(Initial(n), before + [Exit(w)], after, p);
    ExitEmpties(n, before, w, m);
    assert forall s :: s in after ==> s in before + after;
    assert forall s :: s in before ==> s in before + after;
    NobodyLeft(m, after, p);
    InsertAllCounts([], Submissions(after));
    InitialHolds(n);
    RunKeeps(Initial(n), before + [Exit(w)] + after, p);
    NoDiscard(Initial(n), before + [Exit(w)], m);
    NobodyBusy(p.workers);
  }

  lemma {:induction false} NoDiscard(p: Pool, steps: seq<Step>, q: Pool)
    requires Reaches(p, steps, q) && p.discarded == [] && forall s :: s in steps ==> !s.Discard?
    ensures q.discarded == []
    decreases |steps|
  {
    if steps != [] {
      assert steps[0] in steps && forall s :: s in steps[1..] ==> s in steps;
      NoDiscard(Next(p, steps[0]), steps[1..], q);
    }
  }

  lemma ExitEmpties(n: nat, before: seq<Step>, w: nat, m: Pool)
    requires Reaches(Initial(n), before + [Exit(w)], m)
    ensures m.queue == [] && m.stop
  {
    var k := ReachesSplit(Initial(n), before, [Exit(w)], m);
    assert [Exit(w)][1..] == [];
    assert m == Next(k, Exit(w));
  }

  /** A submission is late when the stop flag is already set. */
  ghost predicate NoLateSubmission(p: Pool, steps: seq<Step>)
    decreases |steps|
  {
    steps == []
    || ((steps[0].Submit? ==> !p.stop)
        && (Enabled(p, steps[0]) ==> NoLateSubmission(Next(p, steps[0]), steps[1..])))
  }

  /** After the first exit the stop flag is set and the queue stays empty. */
  ghost predicate Quiet(p: Pool) {
    forall i :: 0 <= i < |p.workers| && p.workers[i].Exited? ==> p.stop && p.queue == []
  }

  lemma {:induction false} GracefulRun(p: Pool, steps: seq<Step>, q: Pool)
    requires Reaches(p, steps, q) && NoLateSubmission(p, steps) && Quiet(p)
    requires p.discarded == [] && forall s :: s in steps ==> !s.Discard?
    ensures Quiet(q) && q.discarded == []
    decreases |steps|
  {
    if steps != [] {
      assert steps[0] in steps && forall s :: s in steps[1..] ==> s in steps;
      QuietStep(p, steps[0]);
      GracefulRun(Next(p, steps[0]), steps[1..], q);
    }
  }

  lemma QuietStep(p: Pool, s: Step)
    requires Quiet(p) && Enabled(p, s) && (s.Submit? ==> !p.stop) && !s.Discard?
    ensures Quiet(Next(p, s))
  {
  }

  /** Graceful shutdown, for every interleaving of at least one worker: if nothing is submitted
      after the stop flag is set, then when all workers have exited the queue is empty and every
      accepted task was dequeued once and passed to execute exactly once. */
  lemma GracefulShutdown(n: nat, steps: seq<Step>, p: Pool)
    requires n >= 1 && Reaches(Initial(n), steps, p) && AllExited(p)
    requires NoLateSubmission(Initial(n), steps) && forall s :: s in steps ==> !s.Discard?
    ensures p.queue == []
    ensures multiset(p.executed) == multiset(p.submitted) == multiset(p.taken)
    ensures forall high :: OfClass(p.taken, high) == OfClass(p.submitted, high)
  {
    hide Next, Enabled, OfClass;
    InitialHolds(n);
    RunKeeps(Initial(n), steps, p);
    GracefulRun(Initial(n), steps, p);
    assert p.workers[0].Exited?;
    NobodyBusy(p.workers);
    forall high: bool
      ensures OfClass(p.taken, high) == OfClass(p.submitted, high)
    {
      assert OfClass([], high) == [] by { EmptyClass(high); }
    }
  }

  lemma EmptyClass(high: bool)
    ensures OfClass([], high) == []
  {
  }

  /** One worker leaves on stop; a task submitted after that is never taken. */
  lemma LateTaskStays(t: Task)
    ensures var p := Pool([t], true, [Exited], [t], [], [], []);
            Reaches(Initial(1), [Stop, Exit(0), Submit(t)], p) && AllExited(p)
  {
    var a := Pool([], true, [Waiting], [], [], [], []);
    var b := Pool([], true, [Exited], [], [], [], []);
    var p := Pool([t], true, [Exited], [t], [], [], []);
    var steps := [Stop, Exit(0), Submit(t)];
    assert Initial(1).workers == [Waiting];
    assert Next(Initial(1), Stop) == a && Next(a, Exit(0)) == b;
    assert Insert([], t) == [t] && [] + [t] == [t];
    assert Next(b, Submit(t)) == p;
    assert steps[1..] == [Exit(0), Submit(t)] && steps[1..][1..] == [Submit(t)] && steps[1..][1..][1..] == [];
    assert Reaches(p, [], p);
    assert Reaches(b, [Submit(t)], p);
    assert Reaches(a, steps[1..], p);
  }
}
