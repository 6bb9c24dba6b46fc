/** The ready queue, the current task and semaphores (os/src/task/{manager,processor,mod}.rs,
    os/src/sync/semaphore.rs). The kernel runs on one core and is not preempted inside, so every
    stretch between two switches is one step. */
module Scheduler {
  import opened Seqs
  import opened Sv39

  /** A task control block's identity. */
  type Task = nat

  /** The first task; its exit shuts the machine down. */
  const INIT: Task := 0

  datatype Status = Ready | Running | Blocked

  /** The processor: each task's recorded status, the ready queue and the running task. */
  datatype Cpu = Cpu(status: map<Task, Status>, ready: seq<Task>, current: Option<Task>)

  datatype Sem = Sem(count: int, waiting: seq<Task>)

  /** `zombies` are the exited tasks; their recorded status stays `Running`. */
  datatype Sys = Sys(cpu: Cpu, zombies: set<Task>, sems: seq<Sem>)

  // ---- what each operation does

  /** `wakeup_task`. */
  function Wakeup(c: Cpu, t: Task): Cpu { Cpu(c.status[t := Ready], c.ready + [t], c.current) }

  /** `suspend_current_and_run_next`, up to the switch. */
  function Suspend(c: Cpu): Cpu
    requires c.current.Some?
  {
    Cpu(c.status[c.current.value := Ready], c.ready + [c.current.value], None)
  }

  /** `block_current_and_run_next`, up to the switch. */
  function Block(c: Cpu): Cpu
    requires c.current.Some?
  {
    Cpu(c.status[c.current.value := Blocked], c.ready, None)
  }

  /** One turn of `run_tasks`; with nothing ready it returns. */
  function Fetch(c: Cpu): Cpu
  {
    if c.ready == [] then c else Cpu(c.status[c.ready[0] := Running], c.ready[1..], Some(c.ready[0]))
  }

  function Down(c: Cpu, s: Sem): (Cpu, Sem)
    requires c.current.Some?
  {
    if s.count - 1 < 0 then (Block(c), Sem(s.count - 1, s.waiting + [c.current.value])) else (c, Sem(s.count - 1, s.waiting))
  }

  function Up(c: Cpu, s: Sem): (Cpu, Sem)
  {
    if s.count + 1 <= 0 && s.waiting != [] then (Wakeup(c, s.waiting[0]), Sem(s.count + 1, s.waiting[1..]))
    else (c, Sem(s.count + 1, s.waiting))
  }

  // ---- the code

  /** TASK_MANAGER, PROCESSOR and the tasks' status fields. */
  class Kernel {
    var status: map<Task, Status>
    var readyQueue: seq<Task>
    var current: Option<Task>

    constructor ()
      ensures View() == Cpu(map[], [], None)
    {
      status, readyQueue, current := map[], [], None;
    }

    function View(): Cpu
      reads this
    {
      Cpu(status, readyQueue, current)
    }

    method AddTask(t: Task)
      modifies this
      ensures View() == Cpu(old(status), old(readyQueue) + [t], old(current))
    {
      readyQueue := readyQueue + [t];
    }

    method FetchTask() returns (t: Option<Task>)
      modifies this
      ensures t == if old(readyQueue) == [] then None else Some(old(readyQueue)[0])
      ensures View() == Cpu(old(status), if old(readyQueue) == [] then [] else old(readyQueue)[1..], old(current))
    {
      if |readyQueue| == 0 { return None; }
      t := Some(readyQueue[0]);
      readyQueue := readyQueue[1..];
    }

    method WakeupTask(t: Task)
      modifies this
      ensures View() == Wakeup(old(View()), t)
    {
      status := status[t := Ready];
      AddTask(t);
    }

    method TakeCurrent() returns (t: Option<Task>)
      modifies this
      ensures t == old(current) && View() == Cpu(old(status), old(readyQueue), None)
    {
      t := current;
      current := None;
    }

    method SuspendCurrent()
      requires current.Some?
      modifies this
      ensures View() == Suspend(old(View()))
    {
      var t := TakeCurrent();
      status := status[t.value := Ready];
      AddTask(t.value);
    }

    method BlockCurrent()
      requires current.Some?
      modifies this
      ensures View() == Block(old(View()))
    {
      var t := TakeCurrent();
      status := status[t.value := Blocked];
    }

    /** One turn of the loop of `run_tasks`; false when it returns. */
    method RunNext() returns (more: bool)
      modifies this
      ensures View() == Fetch(old(View())) && more == (old(readyQueue) != [])
    {
      var t := FetchTask();
      if t.None? { return false; }
      status := status[t.value := Running];
      current := t;
      return true;
    }
  }

  class Semaphore {
    const kernel: Kernel
    var count: int
    var waitQueue: seq<Task>

    constructor (kernel: Kernel, resources: nat)
      ensures this.kernel == kernel && View() == Sem(resources, [])
    {
      this.kernel, count, waitQueue := kernel, resources, [];
    }

    function View(): Sem
      reads this
    {
      Sem(count, waitQueue)
    }

    method UpSem()
      modifies this, kernel
      ensures (kernel.View(), View()) == Up(old(kernel.View()), old(View()))
    {
      count := count + 1;
      if count <= 0 {
        if |waitQueue| > 0 {
          var t := waitQueue[0];
          waitQueue := waitQueue[1..];
          kernel.WakeupTask(t);
        }
      }
    }

    method DownSem()
      requires kernel.current.Some?
      modifies this, kernel
      ensures (kernel.View(), View()) == Down(old(kernel.View()), old(View()))
    {
      count := count - 1;
      if count < 0 {
        waitQueue := waitQueue + [kernel.current.value];
        kernel.BlockCurrent();
      }
    }
  }

  // ---- runs

  datatype Op =
    | OpFetch
    | OpSpawn(task: Task)
    | OpSuspend
    | OpDown(sem: nat)
    | OpUp(sem: nat)
    | OpExit
    | OpNewSem(resources: nat)

  /** The scheduler runs when no task does; everything else is done by the running task. A spawned
      task is a fresh control block. After init's exit there is no next step. */
  ghost predicate Enabled(y: Sys, op: Op)
  {
    match op
    case OpFetch => y.cpu.current.None?
    case OpSpawn(t) => y.cpu.current.Some? && t !in y.cpu.status
    case OpDown(s) => y.cpu.current.Some? && s < |y.sems|
    case OpUp(s) => y.cpu.current.Some? && s < |y.sems|
    case OpExit => y.cpu.current.Some? && y.cpu.current.value != INIT
    case _ => y.cpu.current.Some?
  }

  ghost function Step(y: Sys, op: Op): Sys
    requires Enabled(y, op)
  {
    match op
    case OpFetch => Sys(Fetch(y.cpu), y.zombies, y.sems)
    case OpSpawn(t) => Sys(Wakeup(y.cpu, t), y.zombies, y.sems)
    case OpSuspend => Sys(Suspend(y.cpu), y.zombies, y.sems)
    case OpDown(s) => var r := Down(y.cpu, y.sems[s]); Sys(r.0, y.zombies, y.sems[s := r.1])
    case OpUp(s) => var r := Up(y.cpu, y.sems[s]); Sys(r.0, y.zombies, y.sems[s := r.1])
    case OpExit => Sys(Cpu(y.cpu.status, y.cpu.ready, None), y.zombies + {y.cpu.current.value}, y.sems)
    case OpNewSem(n) => Sys(y.cpu, y.zombies, y.sems + [Sem(n, [])])
  }

  ghost predicate Legal(y: Sys, ops: seq<Op>)
    decreases |ops|
  {
    ops == [] || (Enabled(y, ops[0]) && Legal(Step(y, ops[0]), ops[1..]))
  }

  ghost function Run(y: Sys, ops: seq<Op>): Sys
    requires Legal(y, ops)
    decreases |ops|
  {
    if ops == [] then y else Run(Step(y, ops[0]), ops[1..])
  }

  /** init is created ready, nothing runs yet, no semaphore exists. */
  function Boot(): Sys { Sys(Cpu(map[INIT := Ready], [INIT], None), {}, []) }

  // ---- what every step keeps

  /** Ready tasks are exactly those in the ready queue, each once. */
  ghost predicate ReadyInv(c: Cpu)
  {
    NoDup(c.ready) && forall t :: t in c.ready <==> t in c.status && c.status[t] == Ready
  }

  /** The recorded status is `Running` for the current task and for exited tasks, for no others. */
  ghost predicate RunningInv(c: Cpu, zombies: set<Task>)
  {
    && (c.current.Some? ==> c.current.value !in zombies)
    && forall t :: (t in c.status && c.status[t] == Running) <==> (c.current == Some(t) || t in zombies)
  }

  ghost predicate Waits(sems: seq<Sem>, t: Task) { exists s :: 0 <= s < |sems| && t in sems[s].waiting }

  /** Blocked tasks are exactly those in wait queues, each in one queue, once. */
  ghost predicate BlockedInv(c: Cpu, sems: seq<Sem>)
  {
    (forall t :: (t in c.status && c.status[t] == Blocked) <==> Waits(sems, t)) && Apart(sems)
  }

  /** No task waits twice. */
  ghost predicate Apart(sems: seq<Sem>)
  {
    && (forall s | 0 <= s < |sems| :: NoDup(sems[s].waiting))
    && (forall s, r, t | 0 <= s < r < |sems| && t in sems[s].waiting :: t !in sems[r].waiting)
  }

  function Owed(count: int): nat { if count < 0 then -count else 0 }

  /** A negative count is the number of waiters. */
  ghost predicate CountInv(sems: seq<Sem>)
  {
    forall s | 0 <= s < |sems| :: |sems[s].waiting| == Owed(sems[s].count)
  }

  ghost predicate Inv(y: Sys)
  {
    ReadyInv(y.cpu) && RunningInv(y.cpu, y.zombies) && BlockedInv(y.cpu, y.sems) && CountInv(y.sems)
  }

  lemma ReadyKept(y: Sys, op: Op)
    requires Inv(y) && Enabled(y, op)
    ensures ReadyInv(Step(y, op).cpu)
  {
    var c := y.cpu;
    match op {
      case OpFetch =>
        if c.ready != [] {
          assert c.ready == [c.ready[0]] + c.ready[1..];
        }
      case OpUp(s) =>
        if y.sems[s].count + 1 <= 0 && y.sems[s].waiting != [] {
          assert Waits(y.sems, y.sems[s].waiting[0]);
        }
      case _ =>
    }
  }

  lemma RunningKept(y: Sys, op: Op)
    requires Inv(y) && Enabled(y, op)
    ensures RunningInv(Step(y, op).cpu, Step(y, op).zombies)
  {
    match op {
      case OpFetch =>
        if y.cpu.ready != [] { assert y.cpu.ready[0] in y.cpu.ready; }
      case OpUp(s) =>
        if y.sems[s].count + 1 <= 0 && y.sems[s].waiting != [] {
          assert Waits(y.sems, y.sems[s].waiting[0]);
        }
      case _ =>
    }
  }

  /** Only `down` by the running task adds a waiter, and that task waited nowhere. */
  lemma DownKept(y: Sys, s: nat)
    requires Inv(y) && Enabled(y, OpDown(s))
    ensures BlockedInv(Step(y, OpDown(s)).cpu, Step(y, OpDown(s)).sems) && CountInv(Step(y, OpDown(s)).sems)
  {
    var y' := Step(y, OpDown(s));
    var t := y.cpu.current.value;
    assert !Waits(y.sems, t);
    if y.sems[s].count - 1 < 0 {
      assert t in y'.sems[s].waiting;
    }
    forall u ensures Waits(y'.sems, u) <==> Waits(y.sems, u) || (y.sems[s].count - 1 < 0 && u == t) {
      if Waits(y.sems, u) {
        var r :| 0 <= r < |y.sems| && u in y.sems[r].waiting;
        assert u in y'.sems[r].waiting;
      }
    }
  }

  lemma UpKept(y: Sys, s: nat)
    requires Inv(y) && Enabled(y, OpUp(s))
    ensures BlockedInv(Step(y, OpUp(s)).cpu, Step(y, OpUp(s)).sems) && CountInv(Step(y, OpUp(s)).sems)
  {
    var y' := Step(y, OpUp(s));
    var q := y.sems[s].waiting;
    if y.sems[s].count + 1 <= 0 && q != [] {
      FirstGone(y.sems, s, y'.sems[s]);
    } else {
      WaitsSame(y.sems, y'.sems);
    }
  }

  lemma FirstGone(sems: seq<Sem>, s: nat, sem: Sem)
    requires s < |sems| && Apart(sems) && sems[s].waiting != [] && sem.waiting == sems[s].waiting[1..]
    ensures Apart(sems[s := sem])
    ensures forall t :: Waits(sems[s := sem], t) <==> Waits(sems, t) && t != sems[s].waiting[0]
  {
    var q, w, sems' := sems[s].waiting, sems[s].waiting[0], sems[s := sem];
    assert q == [w] + q[1..];
    forall t ensures Waits(sems', t) <==> Waits(sems, t) && t != w {
      if Waits(sems, t) && t != w {
        var r :| 0 <= r < |sems| && t in sems[r].waiting;
        assert t in sems'[r].waiting;
      }
    }
  }

  lemma WaitsSame(sems: seq<Sem>, sems': seq<Sem>)
    requires |sems| == |sems'| && forall s | 0 <= s < |sems| :: sems'[s].waiting == sems[s].waiting
    ensures forall t :: Waits(sems', t) <==> Waits(sems, t)
  {
  }

  lemma NewSemKept(y: Sys, n: nat)
    requires Inv(y) && Enabled(y, OpNewSem(n))
    ensures BlockedInv(Step(y, OpNewSem(n)).cpu, Step(y, OpNewSem(n)).sems) && CountInv(Step(y, OpNewSem(n)).sems)
  {
    var sems' := Step(y, OpNewSem(n)).sems;
    forall t ensures Waits(sems', t) <==> Waits(y.sems, t) {
      if Waits(y.sems, t) {
        var s :| 0 <= s < |y.sems| && t in y.sems[s].waiting;
        assert t in sems'[s].waiting;
      }
    }
  }

  /** Every step keeps the invariant. */
  lemma StepKeeps(y: Sys, op: Op)
    requires Inv(y) && Enabled(y, op)
    ensures Inv(Step(y, op))
  {
    ReadyKept(y, op);
    RunningKept(y, op);
    match op {
      case OpDown(s) => DownKept(y, s);
      case OpUp(s) => UpKept(y, s);
      case OpNewSem(n) => NewSemKept(y, n);
      case OpFetch => if y.cpu.ready != [] { assert y.cpu.ready[0] in y.cpu.ready; }
      case _ =>
    }
  }

  lemma {:induction false} RunKeeps(y: Sys, ops: seq<Op>)
    requires Inv(y) && Legal(y, ops)
    ensures Inv(Run(y, ops))
    decreases |ops|
  {
    hide Inv, Step;
    if ops != [] {
      StepKeeps(y, ops[0]);
      RunKeeps(Step(y, ops[0]), ops[1..]);
    }
  }

  /** In every run from boot: ready tasks are in the ready queue exactly once, at most one task that
      has not exited is running, blocked tasks are in exactly one wait queue once, and a wait queue
      is as long as the count is negative. */
  lemma Safety(ops: seq<Op>)
    requires Legal(Boot(), ops)
    ensures var y := Run(Boot(), ops);
            && (forall t | t in y.cpu.status && y.cpu.status[t] == Ready :: multiset(y.cpu.ready)[t] == 1)
            && (forall t, u | t in y.cpu.status && u in y.cpu.status && y.cpu.status[t] == Running && y.cpu.status[u] == Running
                  && t !in y.zombies && u !in y.zombies :: t == u)
            && (forall t | t in y.cpu.status && y.cpu.status[t] == Blocked :: WaitsOnce(y.sems, t))
            && (forall s | 0 <= s < |y.sems| :: |y.sems[s].waiting| == Owed(y.sems[s].count))
  {
    assert Inv(Boot());
    RunKeeps(Boot(), ops);
    var y := Run(Boot(), ops);
    forall t | t in y.cpu.status && y.cpu.status[t] == Ready ensures multiset(y.cpu.ready)[t] == 1 {
      assert t in y.cpu.ready;
      Once(y.cpu.ready, t);
    }
    forall t | t in y.cpu.status && y.cpu.status[t] == Blocked ensures WaitsOnce(y.sems, t) {
      assert Waits(y.sems, t);
      var s :| 0 <= s < |y.sems| && t in y.sems[s].waiting;
      Once(y.sems[s].waiting, t);
      forall r | 0 <= r < |y.sems| && r != s ensures t !in y.sems[r].waiting {}
    }
  }

  /** The recorded status alone does not say so: an exited task stays `Running` on record. In every
      run the tasks recorded as running are exactly the exited ones and the current one. */
  lemma RecordedRunning(ops: seq<Op>)
    requires Legal(Boot(), ops)
    ensures var y := Run(Boot(), ops);
            (set t | t in y.cpu.status && y.cpu.status[t] == Running) == y.zombies + (if y.cpu.current.Some? then {y.cpu.current.value} else {})
  {
    assert Inv(Boot());
    RunKeeps(Boot(), ops);
  }

  /** init spawns task 1 and yields; task 1 exits; init runs again. Both are recorded as running. */
  lemma ExitedStaysRunning()
    ensures var ops := [OpFetch, OpSpawn(1), OpSuspend, OpFetch, OpExit, OpFetch];
            Legal(Boot(), ops) && var status := Run(Boot(), ops).cpu.status; 0 in status && 1 in status && status[0] == status[1] == Running
  {
    var y1 := Step(Boot(), OpFetch);
    var y2 := Step(y1, OpSpawn(1));
    var y3 := Step(y2, OpSuspend);
    assert y3.cpu.ready == [1, 0];
    var y4 := Step(y3, OpFetch);
    var y5 := Step(y4, OpExit);
    var ops := [OpFetch, OpSpawn(1), OpSuspend, OpFetch, OpExit, OpFetch];
    assert ops[1..] == [OpSpawn(1), OpSuspend, OpFetch, OpExit, OpFetch] && ops[1..][1..] == [OpSuspend, OpFetch, OpExit, OpFetch];
    assert Legal(y5, [OpFetch]) && Run(y5, [OpFetch]) == Step(y5, OpFetch);
    assert Legal(y4, [OpExit, OpFetch]) && Run(y4, [OpExit, OpFetch]) == Step(y5, OpFetch);
    assert Legal(y3, [OpFetch, OpExit, OpFetch]) && Run(y3, [OpFetch, OpExit, OpFetch]) == Step(y5, OpFetch);
    assert Legal(y2, [OpSuspend, OpFetch, OpExit, OpFetch]) && Run(y2, [OpSuspend, OpFetch, OpExit, OpFetch]) == Step(y5, OpFetch);
  }

  /** `t` is in one wait queue, once, and in no other. */
  ghost predicate WaitsOnce(sems: seq<Sem>, t: Task)
  {
    exists s :: 0 <= s < |sems| && multiset(sems[s].waiting)[t] == 1 && forall r | 0 <= r < |sems| && r != s :: t !in sems[r].waiting
  }

  // ---- what a step does to each task

  ghost predicate Sleeps(y: Sys, op: Op) { op.OpDown? && op.sem < |y.sems| && y.sems[op.sem].count <= 0 }

  ghost predicate Wakes(y: Sys, op: Op, t: Task)
  {
    op.OpUp? && op.sem < |y.sems| && y.sems[op.sem].count < 0 && y.sems[op.sem].waiting != [] && t == y.sems[op.sem].waiting[0]
  }

  /** The record of a task changes in these cases only: it is fetched, it yields, it has to wait, it
      is woken. Nobody leaves the record, and only a spawned task enters it, ready. */
  lemma StatusAfter(y: Sys, op: Op, t: Task)
    requires Inv(y) && Enabled(y, op)
    ensures t in Step(y, op).cpu.status <==> t in y.cpu.status || op == OpSpawn(t)
    ensures op == OpSpawn(t) ==> Step(y, op).cpu.status[t] == Ready
    ensures t in y.cpu.status ==>
      (Step(y, op).cpu.status[t] ==
       if Wakes(y, op, t) || (op.OpSuspend? && y.cpu.current == Some(t)) then Ready
       else if Sleeps(y, op) && y.cpu.current == Some(t) then Blocked
       else if op.OpFetch? && y.cpu.ready != [] && t == y.cpu.ready[0] then Running
       else y.cpu.status[t])
  {
    RecordStep(y, op);
  }

  /** The current task goes on running through a spawn, an `up`, a new semaphore and a `down` with a
      resource left; after a yield, an exit or a `down` without one nobody runs, and a fetch runs the
      front of the ready queue. */
  lemma CurrentAfter(y: Sys, op: Op)
    requires Enabled(y, op)
    ensures Step(y, op).cpu.current ==
      if op.OpFetch? then (if y.cpu.ready == [] then None else Some(y.cpu.ready[0]))
      else if op.OpSuspend? || op.OpExit? || Sleeps(y, op) then None
      else y.cpu.current
    ensures Step(y, op).zombies == if op.OpExit? then y.zombies + {y.cpu.current.value} else y.zombies
  {
  }

  ghost function Spawned(ops: seq<Op>): set<Task>
  {
    if ops == [] then {} else (if ops[0].OpSpawn? then {ops[0].task} else {}) + Spawned(ops[1..])
  }

  lemma {:induction false} RecordGrows(y: Sys, ops: seq<Op>)
    requires Inv(y) && Legal(y, ops)
    ensures Run(y, ops).cpu.status.Keys == y.cpu.status.Keys + Spawned(ops)
    decreases |ops|
  {
    hide Inv, Step;
    if ops != [] {
      StepKeeps(y, ops[0]);
      RecordGrows(Step(y, ops[0]), ops[1..]);
      RecordStep(y, ops[0]);
    }
  }

  lemma RecordStep(y: Sys, op: Op)
    requires Inv(y) && Enabled(y, op)
    ensures Step(y, op).cpu.status.Keys == y.cpu.status.Keys + (if op.OpSpawn? then {op.task} else {})
  {
    if op.OpUp? && y.sems[op.sem].count < 0 && y.sems[op.sem].waiting != [] {
      assert Waits(y.sems, y.sems[op.sem].waiting[0]);
    }
    if op.OpFetch? && y.cpu.ready != [] { assert y.cpu.ready[0] in y.cpu.ready; }
  }

  /** No task is lost: in every run from boot the tasks on record are init and the spawned ones, and
      each of them is current, in the ready queue, waiting or exited, exactly one of the four. */
  lemma EveryTaskSomewhere(ops: seq<Op>, t: Task)
    requires Legal(Boot(), ops) && (t == INIT || t in Spawned(ops))
    ensures var y := Run(Boot(), ops);
            && y.cpu.status.Keys == {INIT} + Spawned(ops)
            && (y.cpu.current == Some(t) || t in y.cpu.ready || Waits(y.sems, t) || t in y.zombies)
            && (y.cpu.current == Some(t) ==> t !in y.cpu.ready && !Waits(y.sems, t) && t !in y.zombies)
            && (t in y.cpu.ready ==> !Waits(y.sems, t) && t !in y.zombies)
            && (t in y.zombies ==> !Waits(y.sems, t))
  {
    assert Inv(Boot());
    RunKeeps(Boot(), ops);
    RecordGrows(Boot(), ops);
    var y := Run(Boot(), ops);
    assert t in y.cpu.status.Keys;
  }

  // ---- order

  /** The task that a fetch makes the current one. */
  ghost function FetchedBy(y: Sys, op: Op): seq<Task>
    requires Enabled(y, op)
  {
    if op.OpFetch? && Step(y, op).cpu.current.Some? then [Step(y, op).cpu.current.value] else []
  }

  /** The task a step makes ready: a new one, the one that yields, or the one an `up` wakes. */
  ghost function QueuedBy(y: Sys, op: Op): seq<Task>
    requires Enabled(y, op)
  {
    match op
    case OpSpawn(t) => [t]
    case OpSuspend => [y.cpu.current.value]
    case OpUp(s) => WokenBy(y, op, s)
    case _ => []
  }

  ghost function SleptBy(y: Sys, op: Op, s: nat): seq<Task>
    requires Enabled(y, op) && s < |y.sems|
  {
    if op == OpDown(s) && y.sems[s].count <= 0 then [y.cpu.current.value] else []
  }

  ghost function WokenBy(y: Sys, op: Op, s: nat): seq<Task>
    requires Enabled(y, op) && s < |y.sems|
  {
    if op == OpUp(s) && y.sems[s].count < 0 && y.sems[s].waiting != [] then [y.sems[s].waiting[0]] else []
  }

  /** The tasks fetched during the run, in order. */
  ghost function Fetched(y: Sys, ops: seq<Op>): seq<Task>
    requires Legal(y, ops)
    decreases |ops|
  {
    if ops == [] then [] else FetchedBy(y, ops[0]) + Fetched(Step(y, ops[0]), ops[1..])
  }

  /** The tasks made ready during the run, in order. */
  ghost function Queued(y: Sys, ops: seq<Op>): seq<Task>
    requires Legal(y, ops)
    decreases |ops|
  {
    if ops == [] then [] else QueuedBy(y, ops[0]) + Queued(Step(y, ops[0]), ops[1..])
  }

  lemma ReadyStep(y: Sys, op: Op)
    requires Enabled(y, op)
    ensures y.cpu.ready + QueuedBy(y, op) == FetchedBy(y, op) + Step(y, op).cpu.ready
  {
  }

  /** The ready queue is first in, first out over any run. */
  lemma {:induction false} ReadyFifo(y: Sys, ops: seq<Op>)
    requires Legal(y, ops)
    ensures y.cpu.ready + Queued(y, ops) == Fetched(y, ops) + Run(y, ops).cpu.ready
    decreases |ops|
  {
    hide Step, FetchedBy, QueuedBy;
    if ops != [] {
      var y' := Step(y, ops[0]);
      ReadyStep(y, ops[0]);
      ReadyFifo(y', ops[1..]);
      Splice(y.cpu.ready, QueuedBy(y, ops[0]), FetchedBy(y, ops[0]), y'.cpu.ready,
        Queued(y', ops[1..]), Fetched(y', ops[1..]), Run(y, ops).cpu.ready);
    }
  }

  /** No starvation: the task at ready position `k` is the one the `(k+1)`-th fetch runs. */
  lemma RunsInTurn(y: Sys, ops: seq<Op>, k: nat)
    requires Legal(y, ops) && k < |y.cpu.ready| && k < |Fetched(y, ops)|
    ensures Fetched(y, ops)[k] == y.cpu.ready[k]
  {
    ReadyFifo(y, ops);
    assert (y.cpu.ready + Queued(y, ops))[k] == (Fetched(y, ops) + Run(y, ops).cpu.ready)[k];
  }

  // ---- semaphores over a run

  /** The tasks that went to sleep in `down(s)` during the run, in order. */
  ghost function Slept(y: Sys, ops: seq<Op>, s: nat): seq<Task>
    requires Legal(y, ops) && s < |y.sems|
    decreases |ops|
  {
    if ops == [] then [] else SleptBy(y, ops[0], s) + Slept(Step(y, ops[0]), ops[1..], s)
  }

  /** The tasks that `up(s)` put back into the ready queue, in order. */
  ghost function Woken(y: Sys, ops: seq<Op>, s: nat): seq<Task>
    requires Legal(y, ops) && s < |y.sems|
    decreases |ops|
  {
    if ops == [] then [] else WokenBy(y, ops[0], s) + Woken(Step(y, ops[0]), ops[1..], s)
  }

  lemma WaitStep(y: Sys, op: Op, s: nat)
    requires Enabled(y, op) && s < |y.sems|
    ensures s < |Step(y, op).sems|
    ensures y.sems[s].waiting + SleptBy(y, op, s) == WokenBy(y, op, s) + Step(y, op).sems[s].waiting
  {
  }

  /** How many times the run does `op`. */
  function Times(ops: seq<Op>, op: Op): nat
  {
    if ops == [] then 0 else (if ops[0] == op then 1 else 0) + Times(ops[1..], op)
  }

  /** Waiters wake in the order they went to sleep. */
  lemma {:induction false} WakeFifo(y: Sys, ops: seq<Op>, s: nat)
    requires Legal(y, ops) && s < |y.sems|
    ensures s < |Run(y, ops).sems|
    ensures y.sems[s].waiting + Slept(y, ops, s) == Woken(y, ops, s) + Run(y, ops).sems[s].waiting
    decreases |ops|
  {
    hide Step, SleptBy, WokenBy;
    if ops != [] {
      var y' := Step(y, ops[0]);
      WaitStep(y, ops[0], s);
      WakeFifo(y', ops[1..], s);
      Splice(y.sems[s].waiting, SleptBy(y, ops[0], s), WokenBy(y, ops[0], s), y'.sems[s].waiting,
        Slept(y', ops[1..], s), Woken(y', ops[1..], s), Run(y, ops).sems[s].waiting);
    }
  }

  /** The count is what it was, less the downs, plus the ups. */
  lemma {:induction false} Balance(y: Sys, ops: seq<Op>, s: nat)
    requires Legal(y, ops) && s < |y.sems|
    ensures s < |Run(y, ops).sems| && Run(y, ops).sems[s].count == y.sems[s].count - Times(ops, OpDown(s)) + Times(ops, OpUp(s))
    decreases |ops|
  {
    if ops != [] {
      Balance(Step(y, ops[0]), ops[1..], s);
    }
  }

  /** Downs that have been granted: those that did not sleep, and the sleepers already woken. */
  ghost function Granted(y: Sys, ops: seq<Op>, s: nat): int
    requires Legal(y, ops) && s < |y.sems|
  {
    Times(ops, OpDown(s)) - |Slept(y, ops, s)| + |Woken(y, ops, s)|
  }

  /** From a semaphore with `n` resources and no waiter: the granted downs are as many as asked for,
      up to `n` plus the ups. So they never exceed the ups by more than `n`, and none is refused
      while a resource is left. */
  lemma Bounded(y: Sys, ops: seq<Op>, s: nat)
    requires Inv(y) && Legal(y, ops) && s < |y.sems| && y.sems[s].waiting == []
    ensures var n := y.sems[s].count;
            n >= 0 && Granted(y, ops, s) == if Times(ops, OpDown(s)) < n + Times(ops, OpUp(s)) then Times(ops, OpDown(s)) else n + Times(ops, OpUp(s))
    ensures Granted(y, ops, s) - Times(ops, OpUp(s)) <= y.sems[s].count
  {
    RunKeeps(y, ops);
    WakeFifo(y, ops, s);
    Balance(y, ops, s);
    assert |y.sems[s].waiting + Slept(y, ops, s)| == |Woken(y, ops, s) + Run(y, ops).sems[s].waiting|;
    assert |y.sems[s].waiting| == Owed(y.sems[s].count);
    assert |Run(y, ops).sems[s].waiting| == Owed(Run(y, ops).sems[s].count);
  }

  /** The same from its creation: a semaphore made with `n` resources grants `n` downs plus one for
      every `up`, no more, and no fewer if they are asked for. */
  lemma BoundedFromNew(y: Sys, n: nat, ops: seq<Op>)
    requires Inv(y) && Enabled(y, OpNewSem(n)) && Legal(Step(y, OpNewSem(n)), ops)
    ensures var y', s := Step(y, OpNewSem(n)), |y.sems|;
            && |y'.sems| == s + 1 && y'.cpu == y.cpu && (forall r | 0 <= r < s :: y'.sems[r] == y.sems[r])
            && Granted(y', ops, s) == if Times(ops, OpDown(s)) < n + Times(ops, OpUp(s)) then Times(ops, OpDown(s)) else n + Times(ops, OpUp(s))
  {
    hide Inv, Granted;
    StepKeeps(y, OpNewSem(n));
    Bounded(Step(y, OpNewSem(n)), ops, |y.sems|);
  }
}
