/** The scheduler of lib/scheduler.c and the request tasks of httpd.c as one transition system.

    Each step is one critical section, one semaphore operation, one unlocked read of shared data,
    or one handler call; everything a thread does in between is private to it. Threads are the
    event loop (thread 0), the workers (threads 1 to nWorkers) and any number of adders, one for
    each accepted connection. Waiting for a mutex is not a step: critical sections are atomic. */
module Identifiers {
  import opened Tasks
  import T = SearchTree
  import Bst

  /** The first id above `alloc` that is not taken. */
  function SkipTaken(taken: set<int>, alloc: int): (id: int)
    ensures alloc < id && id !in taken && forall k :: alloc < k < id ==> k in taken
    decreases taken
  {
    if alloc + 1 in taken then SkipTaken(taken - {alloc + 1}, alloc + 1) else alloc + 1
  }

  /** antd_scheduler_next_id: the id handed out and the allocator afterwards. */
  function NextId(taken: set<int>, allocator: int, input: int): (r: (int, int))
    ensures r.0 !in taken
    ensures input != 0 && input !in taken ==> r.0 == input
  {
    var start := if allocator < 0 then 0 else allocator;
    var id := if input == 0 then start + 1 else input;
    var alloc := if input == 0 then start + 1 else start;
    if id in taken then
      var next := SkipTaken(taken, alloc);
      (next, next)
    else (id, alloc)
  }

  /** An id that was not asked for, or could not be had, is the first free one above the allocator, which moves there. */
  lemma DrawnIdIsNext(taken: set<int>, allocator: int, input: int)
    ensures var (id, allocator') := NextId(taken, allocator, input);
            var start := if allocator < 0 then 0 else allocator;
            if input != 0 && input !in taken then allocator' == start
            else id == allocator' > start && forall k :: start < k < id ==> k in taken
  {
  }

  /** The search loop of antd_scheduler_next_id over the linked task tree. */
  method AllocateId<D>(taskQueue: Bst.Node?<D>, allocator: int, input: int) returns (id: int, allocator': int)
    requires Bst.IsTree(taskQueue) && T.Ordered(Bst.Shape(taskQueue))
    ensures (id, allocator') == NextId(T.Keys(Bst.Shape(taskQueue)), allocator, input)
  {
    id, allocator' := input, allocator;
    if allocator' < 0 {
      allocator' := 0;
    }
    if id == 0 {
      allocator' := allocator' + 1;
      id := allocator';
    }
    ghost var shape := Bst.Shape(taskQueue);
    ghost var taken := T.Keys(shape);
    ghost var start, first := allocator', id;
    ghost var free := SkipTaken(taken, start);
    T.FindIsMembership(shape, id);
    while Bst.Find(taskQueue, id) != null
      invariant T.Find(shape, id).Some? <==> id in taken
      invariant start <= allocator' <= free
      invariant if allocator' == start then id == first else first in taken && id == allocator'
      decreases free - allocator'
    {
      allocator' := allocator' + 1;
      id := allocator';
      T.FindIsMembership(shape, id);
    }
  }
}

module Scheduler {
  import opened Tasks
  import opened Readiness
  import opened Identifiers
  import T = SearchTree

  /** An accepted connection: its socket, and how often finish_request was called for it. */
  datatype Request = Request(sock: int, finishes: nat)

  /** What a thread is doing with a task: calling its handle (antd_execute_task), or one of the
      three steps of antd_scheduler_add_task. */
  datatype Activity =
    | Calling(task: Task)
    | Inserting(task: Task)
    | Counting
    | Posting

  datatype Thread =
    // work()
    | WorkerCheck
    | WorkerDequeue
    | WorkerSleep
    | WorkerBusy(act: Activity)
    | WorkerExit
    // antd_monitor(), one thread for each connection it adds
    | Adder(act: Activity)
    | AdderDone
    // antd_scheduler_wait()
    | LoopCheck
    | LoopCollect
    | LoopPoll(slots: seq<Slot>, next: nat, due: map<int, Task>)
    | LoopDeploy(due: map<int, Task>)
    | LoopUncount(task: Task, due: map<int, Task>)
    | LoopValidate(task: Task, due: map<int, Task>)
    | LoopEnqueue(task: Task, due: map<int, Task>)
    | LoopWake(due: map<int, Task>)
    | LoopBusy(act: Activity, due: map<int, Task>)
    | LoopIdle
    | LoopSleep
    | LoopExit

  predicate IsLoop(th: Thread)
  {
    match th
    case LoopCheck | LoopCollect | LoopPoll(_, _, _) | LoopDeploy(_) | LoopUncount(_, _)
       | LoopValidate(_, _) | LoopEnqueue(_, _) | LoopWake(_) | LoopBusy(_, _)
       | LoopIdle | LoopSleep | LoopExit => true
    case _ => false
  }

  predicate IsWorker(th: Thread)
  {
    th.WorkerCheck? || th.WorkerDequeue? || th.WorkerSleep? || th.WorkerBusy? || th.WorkerExit?
  }

  /** The thread running stop(). */
  datatype Stopper =
    | Running
    | WakingWorkers(posted: nat)
    | WakingLoop
    | Joining(joined: nat)
    | Stopped

  datatype State = State(
    nWorkers: nat,
    limit: int,                   // the validity interval of a task, in seconds
    clock: int,                   // time(NULL)
    status: bool,
    taskQueue: map<int, Task>,
    workersQueue: seq<Task>,
    pending: int,                 // pending_task
    idAllocator: int,
    schedulerSem: nat,
    workerSem: nat,
    requests: map<nat, Request>,
    threads: seq<Thread>,
    stopper: Stopper)

  /** Everything the outside decides in a thread's step: what a handler returns, how the walk over
      the task tree goes, what the clocks read, what poll reports. */
  datatype Choice = Choice(
    ret: Return,
    order: seq<(int, Task)>,
    clocks: Clocks,
    examine: bool,
    revents: Revents)

  datatype Label =
    | Run(thread: nat, choice: Choice)
    | Accept(request: nat, sock: int, events: seq<Event>)
    | Tick(now: int)
    | Stop

  predicate Live(s: State, r: nat)
  {
    r in s.requests.Keys && s.requests[r].finishes == 0
  }

  // ---- The steps of a thread --------------------------------------------------------

  function Finished(s: State, r: nat): State
    requires r in s.requests.Keys
  {
    var request := s.requests[r];
    s.(requests := s.requests[r := request.(finishes := request.finishes + 1)])
  }

  function Moved(s: State, i: nat, th: Thread): State
    requires i < |s.threads|
  {
    s.(threads := s.threads[i := th])
  }

  function ActivityOf(th: Thread): Option<Activity>
  {
    match th
    case WorkerBusy(act) => Some(act)
    case Adder(act) => Some(act)
    case LoopBusy(act, _) => Some(act)
    case _ => None
  }

  /** The thread once its activity goes on with `act`, or is over. */
  function Resume(th: Thread, act: Option<Activity>): Thread
  {
    match th
    case WorkerBusy(_) => if act.Some? then WorkerBusy(act.value) else WorkerCheck
    case Adder(_) => if act.Some? then Adder(act.value) else AdderDone
    case LoopBusy(_, due) => if act.Some? then LoopBusy(act.value, due) else LoopDeploy(due)
    case _ => th
  }

  /** The handler returns: finish_request closes the request, any other handler may have created a
      task, whose id antd_task_data_id drew from the socket of the request. */
  function Called(s: State, i: nat, task: Task, ret: Return): State
    requires i < |s.threads| && task.handle.Some? && task.request in s.requests.Keys
  {
    var s1 := if task.handle.value == FinishRequest then Finished(s, task.request) else s;
    var (id, allocator) :=
      if ret.Null? then (0, s.idAllocator)
      else NextId(s.taskQueue.Keys, s.idAllocator, s.requests[task.request].sock);
    var next := AfterCall(task, ret, id);
    Moved(s1.(idAllocator := allocator), i,
          Resume(s.threads[i], if next.Some? then Some(Inserting(next.value)) else None))
  }

  function ActivityStep(s: State, i: nat, act: Activity, choice: Choice): State
    requires i < |s.threads|
    requires act.Calling? ==> act.task.handle.Some? && act.task.request in s.requests.Keys
  {
    var th := s.threads[i];
    match act
    case Calling(task) => Called(s, i, task, choice.ret)
    case Inserting(task) =>
      Moved(s.(taskQueue := s.taskQueue[task.id := task]), i, Resume(th, Some(Counting)))
    case Counting => Moved(s.(pending := s.pending + 1), i, Resume(th, Some(Posting)))
    case Posting => Moved(s.(schedulerSem := s.schedulerSem + 1), i, Resume(th, None))
  }

  /** The tasks due without polling. */
  function DueNow(taskQueue: map<int, Task>, clocks: Clocks, limit: int): map<int, Task>
  {
    map k | k in taskQueue.Keys && RunsNow(taskQueue[k], clocks, limit) :: taskQueue[k]
  }

  function TasksOf(order: seq<(int, Task)>): seq<Task>
  {
    seq(|order|, j requires 0 <= j < |order| => order[j].1)
  }

  /** The result of one poll slot. A polled task is still in the task tree (proved below), so
      nulling it there and in the schedule is nulling the one task both point to. */
  function PollStep(s: State, i: nat, revents: Revents): State
    requires i < |s.threads| && s.threads[i].LoopPoll? && s.threads[i].next < |s.threads[i].slots|
  {
    var LoopPoll(slots, next, due) := s.threads[i];
    var Slot(id, event) := slots[next];
    var verdict := Judge(event.flags, revents);
    if id !in s.taskQueue.Keys || verdict.Quiet? then Moved(s, i, LoopPoll(slots, next + 1, due))
    else if verdict.Fire? then Moved(s, i, LoopPoll(slots, next + 1, due[id := s.taskQueue[id]]))
    else
      var nulled := Nulled(s.taskQueue[id]);
      Moved(s.(taskQueue := s.taskQueue[id := nulled]), i, LoopPoll(slots, next + 1, due[id := nulled]))
  }

  ghost predicate IsLeast(k: int, keys: set<int>)
  {
    k in keys && forall j :: j in keys ==> k <= j
  }

  lemma LeastExists(keys: set<int>, k: int)
    requires k in keys
    ensures exists m :: IsLeast(m, keys)
    decreases keys
  {
    if j :| j in keys && j < k {
      LeastExists(keys - {k}, j);
      var m :| IsLeast(m, keys - {k});
      assert forall i :: i in keys ==> i == k || i in keys - {k};
      assert IsLeast(m, keys);
    } else {
      assert IsLeast(k, keys);
    }
  }

  /** The first id the walk over the schedule meets. */
  ghost function Least(keys: set<int>): (k: int)
    requires exists j :: j in keys
    ensures IsLeast(k, keys)
  {
    var j :| j in keys;
    LeastExists(keys, j);
    var k :| IsLeast(k, keys);
    k
  }

  /** Whether a thread can take its next step with this choice. Only sleeping blocks; a call through a null
      handle is no step, it is where the process is lost. */
  ghost predicate CanStep(s: State, i: nat, choice: Choice)
  {
    && i < |s.threads|
    && match s.threads[i]
       case WorkerSleep => s.workerSem > 0
       case LoopSleep => s.schedulerSem > 0
       case WorkerExit | AdderDone | LoopExit => false
       case LoopCollect => T.IsTraversal(choice.order, s.taskQueue)
       case th =>
         ActivityOf(th).Some? && ActivityOf(th).value.Calling? ==>
           var task := ActivityOf(th).value.task;
           && task.handle.Some? && task.request in s.requests.Keys
           && CanReturn(task.handle.value, choice.ret)
  }

  ghost function ThreadStep(s: State, i: nat, choice: Choice): State
    requires CanStep(s, i, choice)
  {
    match s.threads[i]
    case WorkerCheck => Moved(s, i, if s.status then WorkerDequeue else WorkerExit)
    case WorkerDequeue =>
      if s.workersQueue == [] then Moved(s, i, WorkerSleep)
      else Moved(s.(workersQueue := s.workersQueue[1..]), i, WorkerBusy(Calling(s.workersQueue[0])))
    case WorkerSleep => Moved(s.(workerSem := s.workerSem - 1), i, WorkerCheck)
    case WorkerBusy(act) => ActivityStep(s, i, act, choice)
    case Adder(act) => ActivityStep(s, i, act, choice)
    case LoopBusy(act, _) => ActivityStep(s, i, act, choice)

    case LoopCheck => Moved(s, i, if s.status then LoopCollect else LoopExit)
    case LoopCollect =>
      Moved(s, i, LoopPoll(Slots(TasksOf(choice.order), choice.clocks, s.limit), 0,
                           DueNow(s.taskQueue, choice.clocks, s.limit)))
    case LoopPoll(slots, next, due) =>
      if next < |slots| && choice.examine then PollStep(s, i, choice.revents) else Moved(s, i, LoopDeploy(due))
    case LoopDeploy(due) =>
      if forall k :: k !in due.Keys then Moved(s, i, LoopIdle)
      else
        var k := Least(due.Keys);
        Moved(s.(taskQueue := s.taskQueue - {due[k].id}), i, LoopUncount(due[k], due - {k}))
    case LoopUncount(task, due) => Moved(s.(pending := s.pending - 1), i, LoopValidate(task, due))
    case LoopValidate(task, due) =>
      if Expired(task, s.clock, s.limit) then
        Moved(if task.request in s.requests.Keys then Finished(s, task.request) else s, i, LoopDeploy(due))
      else if s.nWorkers == 0 then Moved(s, i, LoopBusy(Calling(task), due))
      else Moved(s, i, LoopEnqueue(task, due))
    case LoopEnqueue(task, due) => Moved(s.(workersQueue := s.workersQueue + [task]), i, LoopWake(due))
    case LoopWake(due) => Moved(s.(workerSem := s.workerSem + 1), i, LoopDeploy(due))
    case LoopIdle => Moved(s, i, if s.taskQueue.Keys == {} then LoopSleep else LoopCheck)
    case LoopSleep => Moved(s.(schedulerSem := s.schedulerSem - 1), i, LoopCheck)

    // CanStep excludes these
    case WorkerExit | AdderDone | LoopExit => s
  }

  // ---- The other steps --------------------------------------------------------------

  /** accept() returns a positive descriptor that no open connection uses. */
  predicate CanAccept(s: State, r: nat, sock: int)
  {
    && r !in s.requests.Keys && sock > 0
    && forall q :: q in s.requests.Keys && s.requests[q].finishes == 0 ==> s.requests[q].sock != sock
  }

  /** antd_monitor up to its call of antd_scheduler_add_task. */
  function Accepted(s: State, r: nat, sock: int, events: seq<Event>): State
  {
    var (id, allocator) := NextId(s.taskQueue.Keys, s.idAllocator, sock);
    var task := Task(id, r, Some(AcceptRequest), [FinishRequest], s.clock, events);
    s.(requests := s.requests[r := Request(sock, 0)],
       idAllocator := allocator,
       threads := s.threads + [Adder(Inserting(task))])
  }

  predicate CanStop(s: State)
  {
    match s.stopper
    case Joining(j) => j >= s.nWorkers || (j + 1 < |s.threads| && s.threads[j + 1] == WorkerExit)
    case Stopped => false
    case _ => true
  }

  function StopStep(s: State): State
  {
    match s.stopper
    case Running => s.(status := false, stopper := WakingWorkers(0))
    case WakingWorkers(n) =>
      if n < s.nWorkers then s.(workerSem := s.workerSem + 1, stopper := WakingWorkers(n + 1))
      else s.(stopper := WakingLoop)
    case WakingLoop => s.(schedulerSem := s.schedulerSem + 1, stopper := Joining(0))
    case Joining(j) => s.(stopper := if j < s.nWorkers then Joining(j + 1) else Stopped)
    case Stopped => s
  }

  // ---- Runs -------------------------------------------------------------------------

  /** antd_scheduler_init. */
  ghost predicate Init(s: State)
  {
    && s.status && s.taskQueue == map[] && s.workersQueue == [] && s.pending == 0 && s.idAllocator == 0
    && s.schedulerSem == 0 && s.workerSem == 0 && s.requests == map[] && s.stopper == Running
    && s.threads == [LoopCheck] + seq(s.nWorkers, _ => WorkerCheck)
  }

  ghost predicate Enabled(s: State, l: Label)
  {
    match l
    case Run(i, choice) => CanStep(s, i, choice)
    case Accept(r, sock, _) => CanAccept(s, r, sock)
    case Tick(now) => now >= s.clock
    case Stop => CanStop(s)
  }

  ghost function Apply(s: State, l: Label): State
    requires Enabled(s, l)
  {
    match l
    case Run(i, choice) => ThreadStep(s, i, choice)
    case Accept(r, sock, events) => Accepted(s, r, sock, events)
    case Tick(now) => s.(clock := now)
    case Stop => StopStep(s)
  }

  /** `states` is a run that takes the steps `labels`. */
  ghost predicate IsRun(states: seq<State>, labels: seq<Label>)
  {
    && |states| == |labels| + 1
    && Init(states[0])
    && forall n :: 0 <= n < |labels| ==> Enabled(states[n], labels[n]) && states[n + 1] == Apply(states[n], labels[n])
  }

  ghost predicate ReachableFrom(s0: State, s: State)
  {
    exists states, labels :: IsRun(states, labels) && states[0] == s0 && states[|labels|] == s
  }

  ghost predicate Reachable(s: State)
  {
    exists states, labels :: IsRun(states, labels) && states[|labels|] == s
  }
}
