/** What holds in every state the scheduler can reach. */
module SchedulerInvariant {
  import opened Tasks
  import opened Readiness
  import opened Scheduler

  // ---- Counting threads -------------------------------------------------------------

  /** What a thread can be counted for. */
  datatype Metric =
    | Speaks(request: nat)   // it holds the current task of the request
    | ToCount                // between inserting a task and pending_task++
    | ToUncount              // between deleting a task and pending_task--
    | ToPost                 // between inserting a task and posting to the event loop
    | ToWake                 // between enqueueing a task and posting to the workers
    | Awake                  // a worker not committed to sleep
    | Blockable              // a worker that may still wait once more

  /** The task only this thread knows of. */
  function Held(th: Thread): Option<Task>
  {
    match th
    case LoopUncount(task, _) => Some(task)
    case LoopValidate(task, _) => Some(task)
    case LoopEnqueue(task, _) => Some(task)
    case _ =>
      match ActivityOf(th)
      case Some(Calling(task)) => Some(task)
      case Some(Inserting(task)) => Some(task)
      case _ => None
  }

  function Weigh(m: Metric, th: Thread): nat
  {
    var act := ActivityOf(th);
    var counted :=
      match m
      case Speaks(r) => Held(th).Some? && Held(th).value.request == r
      case ToCount => act == Some(Counting)
      case ToUncount => th.LoopUncount?
      case ToPost => act == Some(Counting) || act == Some(Posting)
      case ToWake => th.LoopWake?
      case Awake => th.WorkerCheck? || th.WorkerDequeue? || th.WorkerBusy?
      case Blockable => th.WorkerDequeue? || th.WorkerSleep?;
    if counted then 1 else 0
  }

  function Total(m: Metric, threads: seq<Thread>): nat
  {
    if threads == [] then 0 else Weigh(m, threads[0]) + Total(m, threads[1..])
  }

  lemma {:induction false} TotalMoved(m: Metric, threads: seq<Thread>, i: nat, th: Thread)
    requires i < |threads|
    ensures Total(m, threads[i := th]) == Total(m, threads) - Weigh(m, threads[i]) + Weigh(m, th)
  {
    if i == 0 {
      assert threads[0 := th][1..] == threads[1..];
    } else {
      assert threads[i := th][1..] == threads[1..][i - 1 := th];
      TotalMoved(m, threads[1..], i - 1, th);
    }
  }

  lemma {:induction false} TotalJoined(m: Metric, threads: seq<Thread>, th: Thread)
    ensures Total(m, threads + [th]) == Total(m, threads) + Weigh(m, th)
  {
    if threads == [] {
      assert threads + [th] == [th];
    } else {
      assert (threads + [th])[1..] == threads[1..] + [th];
      TotalJoined(m, threads[1..], th);
    }
  }

  /** No two threads weigh more than all of them. */
  lemma {:induction false} TotalOfTwo(m: Metric, threads: seq<Thread>, i: nat, j: nat)
    requires i < |threads| && j < |threads| && i != j
    ensures Total(m, threads) >= Weigh(m, threads[i]) + Weigh(m, threads[j])
  {
    var idle := threads[i := LoopExit];
    TotalMoved(m, threads, i, LoopExit);
    TotalMoved(m, idle, j, LoopExit);
  }

  lemma TotalOfOne(m: Metric, threads: seq<Thread>, i: nat)
    requires i < |threads|
    ensures Total(m, threads) >= Weigh(m, threads[i])
  {
    TotalMoved(m, threads, i, LoopExit);
  }

  lemma {:induction false} SomeoneWeighs(m: Metric, threads: seq<Thread>) returns (i: nat)
    requires Total(m, threads) > 0
    ensures i < |threads| && Weigh(m, threads[i]) > 0
  {
    if Weigh(m, threads[0]) > 0 {
      i := 0;
    } else {
      i := SomeoneWeighs(m, threads[1..]);
      i := i + 1;
    }
  }

  /** If only the first `n` threads weigh anything, they weigh at most `n`. */
  lemma {:induction false} FewWeigh(m: Metric, threads: seq<Thread>, n: nat)
    requires forall i :: n <= i < |threads| ==> Weigh(m, threads[i]) == 0
    ensures Total(m, threads) <= n
  {
    if threads != [] && n > 0 {
      FewWeigh(m, threads[1..], n - 1);
    } else if threads != [] {
      FewWeigh(m, threads[1..], 0);
    }
  }

  /** How many ready tasks belong to the request. */
  function Queued(queue: seq<Task>, r: nat): nat
  {
    if queue == [] then 0 else (if queue[0].request == r then 1 else 0) + Queued(queue[1..], r)
  }

  lemma {:induction false} QueuedJoined(queue: seq<Task>, task: Task, r: nat)
    ensures Queued(queue + [task], r) == Queued(queue, r) + if task.request == r then 1 else 0
  {
    if queue == [] {
      assert queue + [task] == [task];
    } else {
      assert (queue + [task])[1..] == queue[1..] + [task];
      QueuedJoined(queue[1..], task, r);
    }
  }

  lemma {:induction false} QueuedOne(queue: seq<Task>, j: nat)
    requires j < |queue|
    ensures Queued(queue, queue[j].request) > 0
  {
    if j > 0 {
      QueuedOne(queue[1..], j - 1);
    }
  }

  lemma {:induction false} SomeoneQueued(queue: seq<Task>, r: nat) returns (j: nat)
    requires Queued(queue, r) > 0
    ensures j < |queue| && queue[j].request == r
  {
    if queue[0].request == r {
      j := 0;
    } else {
      j := SomeoneQueued(queue[1..], r);
      j := j + 1;
    }
  }

  lemma {:induction false} NoneQueued(queue: seq<Task>, r: nat)
    requires forall j :: 0 <= j < |queue| ==> queue[j].request != r
    ensures Queued(queue, r) == 0
  {
    if queue != [] {
      NoneQueued(queue[1..], r);
    }
  }

  // ---- The invariant ----------------------------------------------------------------

  /** Thread 0 is the event loop, the next nWorkers are workers, the rest are adders. */
  ghost predicate Roles(s: State)
  {
    && |s.threads| > s.nWorkers
    && forall i :: 0 <= i < |s.threads| ==>
         if i == 0 then IsLoop(s.threads[i])
         else if i <= s.nWorkers then IsWorker(s.threads[i])
         else s.threads[i].Adder? || s.threads[i].AdderDone?
  }

  /** The task speaks for a request in progress and carries its socket as id. */
  ghost predicate Owned(s: State, task: Task)
  {
    Live(s, task.request) && task.id == s.requests[task.request].sock
  }

  ghost predicate Runnable(task: Task)
  {
    task.handle.Some? && WellChained(task)
  }

  /** Without a handle a task has access time 0. */
  ghost predicate Sound(task: Task)
  {
    if task.handle.None? then task.accessTime == 0 else WellChained(task)
  }

  ghost predicate TreeOk(s: State)
  {
    forall k :: k in s.taskQueue.Keys ==>
      s.taskQueue[k].id == k && Owned(s, s.taskQueue[k]) && Sound(s.taskQueue[k])
  }

  ghost predicate QueueOk(s: State)
  {
    && (forall j :: 0 <= j < |s.workersQueue| ==> Owned(s, s.workersQueue[j]) && Sound(s.workersQueue[j]))
    && (s.nWorkers == 0 ==> s.workersQueue == [])
  }

  /** Every scheduled task is still waiting in the task tree. */
  ghost predicate DueOk(s: State, due: map<int, Task>)
  {
    forall k :: k in due.Keys ==> k in s.taskQueue.Keys && s.taskQueue[k] == due[k]
  }

  ghost function Schedule(th: Thread): map<int, Task>
  {
    match th
    case LoopPoll(_, _, due) => due
    case LoopDeploy(due) => due
    case LoopUncount(_, due) => due
    case LoopValidate(_, due) => due
    case LoopEnqueue(_, due) => due
    case LoopWake(due) => due
    case LoopBusy(_, due) => due
    case _ => map[]
  }

  ghost predicate HeldOk(s: State, th: Thread)
  {
    match Held(th)
    case None => true
    case Some(task) =>
      Owned(s, task) && if ActivityOf(th) == Some(Inserting(task)) then Runnable(task) else Sound(task)
  }

  /** What the event loop knows of the task tree. */
  ghost predicate LoopOk(s: State, th: Thread)
  {
    && DueOk(s, Schedule(th))
    && (th.LoopPoll? ==> forall j :: 0 <= j < |th.slots| ==> th.slots[j].id in s.taskQueue.Keys)
    && (th.LoopEnqueue? ==> s.nWorkers > 0)
    && (th.LoopBusy? ==> s.nWorkers == 0)
    // a task nulled on a hang-up is scheduled: it does not survive the round
    && (forall k :: k in s.taskQueue.Keys && s.taskQueue[k].handle.None? ==> k in Schedule(th).Keys)
  }

  ghost predicate ThreadsOk(s: State)
  {
    forall i :: 0 <= i < |s.threads| ==> HeldOk(s, s.threads[i])
  }

  ghost predicate RequestsOk(s: State)
  {
    && (forall r :: r in s.requests.Keys ==> s.requests[r].sock > 0)
    && (forall q, r :: Live(s, q) && Live(s, r) && s.requests[q].sock == s.requests[r].sock ==> q == r)
  }

  /** How many tasks speak for the request: in the task tree, in the workers' queue, in a thread's hands. */
  ghost function Speakers(s: State, r: nat): nat
    requires r in s.requests.Keys
  {
    var sock := s.requests[r].sock;
    (if sock in s.taskQueue.Keys && s.taskQueue[sock].request == r then 1 else 0)
    + Queued(s.workersQueue, r)
    + Total(Speaks(r), s.threads)
  }

  /** A request in progress has exactly one current task; once finished, and finished once, none. */
  ghost predicate Conserved(s: State)
  {
    forall r :: r in s.requests.Keys ==> Speakers(s, r) + s.requests[r].finishes == 1
  }

  ghost predicate Structure(s: State)
  {
    && Roles(s) && TreeOk(s) && QueueOk(s) && ThreadsOk(s) && LoopOk(s, s.threads[0])
    && RequestsOk(s) && Conserved(s)
  }

  /** pending_task lags behind the task tree only by the steps in flight. */
  ghost predicate PendingOk(s: State)
  {
    s.pending + Total(ToCount, s.threads) - Total(ToUncount, s.threads) == |s.taskQueue.Keys|
  }

  ghost predicate WorkersWoken(s: State)
  {
    s.status ==> |s.workersQueue| <= s.workerSem + Total(ToWake, s.threads) + Total(Awake, s.threads)
  }

  ghost predicate LoopWoken(s: State)
  {
    |s.threads| > 0 && s.threads[0].LoopSleep? && s.taskQueue.Keys != {} ==>
      s.schedulerSem + Total(ToPost, s.threads) > 0
  }

  /** Posts to the workers that stop() has still to make. */
  ghost function PostsDue(s: State): nat
  {
    match s.stopper
    case Running => s.nWorkers
    case WakingWorkers(n) => if n <= s.nWorkers then s.nWorkers - n else 0
    case _ => 0
  }

  ghost predicate StopCovers(s: State)
  {
    && (s.status <==> s.stopper.Running?)
    && (s.status ==> forall i :: 0 <= i < |s.threads| ==> !s.threads[i].WorkerExit? && !s.threads[i].LoopExit?)
    && (!s.status ==> Total(Blockable, s.threads) <= s.workerSem + PostsDue(s))
  }

  ghost predicate Inv(s: State)
  {
    Structure(s) && PendingOk(s) && WorkersWoken(s) && LoopWoken(s) && StopCovers(s)
  }
}
