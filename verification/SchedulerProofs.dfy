/** Every step of the scheduler keeps the invariant. */
module StructureProofs {
  import opened Tasks
  import opened Readiness
  import opened Scheduler
  import opened SchedulerInvariant
  import opened Identifiers
  import T = SearchTree

  /** Whoever holds the task of a request in progress is alone with it. */
  lemma SoleHolder(s: State, i: nat, r: nat)
    requires Structure(s) && i < |s.threads| && Live(s, r)
    requires Held(s.threads[i]).Some? && Held(s.threads[i]).value.request == r
    ensures s.requests[r].sock !in s.taskQueue.Keys
    ensures forall k :: k in s.taskQueue.Keys ==> s.taskQueue[k].request != r
    ensures forall j :: 0 <= j < |s.workersQueue| ==> s.workersQueue[j].request != r
    ensures forall j :: 0 <= j < |s.threads| && j != i ==>
              Held(s.threads[j]).Some? ==> Held(s.threads[j]).value.request != r
  {
    TotalOfOne(Speaks(r), s.threads, i);
    assert Queued(s.workersQueue, r) == 0;
    forall j | 0 <= j < |s.workersQueue| ensures s.workersQueue[j].request != r {
      QueuedOne(s.workersQueue, j);
    }
    forall j | 0 <= j < |s.threads| && j != i && Held(s.threads[j]).Some?
      ensures Held(s.threads[j]).value.request != r
    {
      TotalOfTwo(Speaks(r), s.threads, i, j);
    }
  }

  /** Two states that differ in nothing the structure speaks of but thread `i`. */
  ghost predicate OnlyThread(s: State, s': State, i: nat, th: Thread)
  {
    && i < |s.threads| && s'.threads == s.threads[i := th]
    && s'.taskQueue == s.taskQueue && s'.workersQueue == s.workersQueue
    && s'.requests == s.requests && s'.nWorkers == s.nWorkers
    && s'.clock == s.clock && s'.limit == s.limit
  }

  ghost predicate SameRole(a: Thread, b: Thread)
  {
    && (IsLoop(a) <==> IsLoop(b)) && (IsWorker(a) <==> IsWorker(b))
    && (a.Adder? || a.AdderDone? <==> b.Adder? || b.AdderDone?)
  }

  /** A thread may move on as long as it still holds a task of the same request, if any. */
  lemma ThreadMoves(s: State, s': State, i: nat, th: Thread)
    requires Structure(s) && OnlyThread(s, s', i, th) && SameRole(s.threads[i], th)
    requires HeldOk(s, th) && (i == 0 ==> LoopOk(s, th))
    requires forall r :: Weigh(Speaks(r), th) == Weigh(Speaks(r), s.threads[i])
    ensures Structure(s')
  {
    forall r | r in s.requests.Keys ensures Speakers(s', r) == Speakers(s, r) {
      TotalMoved(Speaks(r), s.threads, i, th);
    }
  }

  // ---- Steps that move a task -------------------------------------------------------

  /** WorkerDequeue with a ready task. */
  lemma Dequeues(s: State, s': State, i: nat)
    requires Structure(s) && i < |s.threads| && s.threads[i] == WorkerDequeue && s.workersQueue != []
    requires s' == Moved(s.(workersQueue := s.workersQueue[1..]), i, WorkerBusy(Calling(s.workersQueue[0])))
    ensures Structure(s')
  {
    forall r | r in s.requests.Keys ensures Speakers(s', r) == Speakers(s, r) {
      TotalMoved(Speaks(r), s.threads, i, WorkerBusy(Calling(s.workersQueue[0])));
    }
  }

  /** LoopEnqueue. */
  lemma Enqueues(s: State, s': State, task: Task, due: map<int, Task>)
    requires Structure(s) && s.threads[0] == LoopEnqueue(task, due)
    requires s' == Moved(s.(workersQueue := s.workersQueue + [task]), 0, LoopWake(due))
    ensures Structure(s')
  {
    assert HeldOk(s, s.threads[0]);
    EnqueueConserves(s, s', task, due);
  }

  lemma EnqueueConserves(s: State, s': State, task: Task, due: map<int, Task>)
    requires Structure(s) && s.threads[0] == LoopEnqueue(task, due)
    requires s' == Moved(s.(workersQueue := s.workersQueue + [task]), 0, LoopWake(due))
    ensures Conserved(s')
  {
    forall r | r in s.requests.Keys ensures Speakers(s', r) == Speakers(s, r) {
      TotalMoved(Speaks(r), s.threads, 0, LoopWake(due));
      QueuedJoined(s.workersQueue, task, r);
    }
  }

  /** The insertion of antd_scheduler_add_task: it never overwrites a waiting task. */
  lemma Inserts(s: State, s': State, i: nat, task: Task, th: Thread)
    requires Structure(s) && i < |s.threads| && ActivityOf(s.threads[i]) == Some(Inserting(task))
    requires th == Resume(s.threads[i], Some(Counting))
    requires s' == Moved(s.(taskQueue := s.taskQueue[task.id := task]), i, th)
    ensures Structure(s') && task.id !in s.taskQueue.Keys
  {
    assert HeldOk(s, s.threads[i]);
    SoleHolder(s, i, task.request);
    InsertConserves(s, s', i, task, th);
  }

  lemma InsertConserves(s: State, s': State, i: nat, task: Task, th: Thread)
    requires Structure(s) && i < |s.threads| && ActivityOf(s.threads[i]) == Some(Inserting(task))
    requires Owned(s, task) && task.id !in s.taskQueue.Keys && th == Resume(s.threads[i], Some(Counting))
    requires s' == Moved(s.(taskQueue := s.taskQueue[task.id := task]), i, th)
    ensures Conserved(s')
  {
    forall r | r in s.requests.Keys ensures Speakers(s', r) == Speakers(s, r) {
      TotalMoved(Speaks(r), s.threads, i, th);
      if r != task.request && Live(s, r) {
        assert s.requests[r].sock != task.id;
      }
    }
  }

  /** LoopDeploy: the first scheduled task leaves the task tree. */
  lemma Deploys(s: State, s': State, k: int, due: map<int, Task>)
    requires Structure(s) && s.threads[0] == LoopDeploy(due) && k in due.Keys
    requires s' == Moved(s.(taskQueue := s.taskQueue - {due[k].id}), 0, LoopUncount(due[k], due - {k}))
    ensures Structure(s') && due[k].id == k && k in s.taskQueue.Keys
  {
    var th := LoopUncount(due[k], due - {k});
    forall r | r in s.requests.Keys ensures Speakers(s', r) == Speakers(s, r) {
      TotalMoved(Speaks(r), s.threads, 0, th);
    }
  }

  /** A hang-up nulls the task in the tree and in the schedule alike. */
  lemma Nulls(s: State, s': State, id: int, slots: seq<Slot>, next: nat, due: map<int, Task>)
    requires Structure(s) && id in s.taskQueue.Keys && s.threads[0] == LoopPoll(slots, next, due)
    requires var nulled := Nulled(s.taskQueue[id]);
             s' == Moved(s.(taskQueue := s.taskQueue[id := nulled]), 0, LoopPoll(slots, next + 1, due[id := nulled]))
    ensures Structure(s')
  {
    var nulled := Nulled(s.taskQueue[id]);
    assert Owned(s, nulled) && Sound(nulled) && nulled.id == id;
    assert s.taskQueue.Keys == s'.taskQueue.Keys;
    assert TreeOk(s') && LoopOk(s', s'.threads[0]);
    assert Conserved(s') by {
      forall r | r in s.requests.Keys ensures Speakers(s', r) == Speakers(s, r) {
        TotalMoved(Speaks(r), s.threads, 0, s'.threads[0]);
      }
    }
  }

  /** One poll result. */
  lemma Polls(s: State, s': State, revents: Revents)
    requires Structure(s) && s.threads[0].LoopPoll? && s.threads[0].next < |s.threads[0].slots|
    requires s' == PollStep(s, 0, revents)
    ensures Structure(s') && s'.taskQueue.Keys == s.taskQueue.Keys
  {
    var LoopPoll(slots, next, due) := s.threads[0];
    var Slot(id, event) := slots[next];
    if id in s.taskQueue.Keys && Judge(event.flags, revents) == HangUp {
      Nulls(s, s', id, slots, next, due);
    } else {
      ThreadMoves(s, s', 0, s'.threads[0]);
    }
  }

  lemma FinishConserves(s: State, s': State, i: nat, th: Thread)
    requires Structure(s) && i < |s.threads| && Held(s.threads[i]).Some? && Held(th).None?
    requires Held(s.threads[i]).value.request in s.requests.Keys
    requires s' == Moved(Finished(s, Held(s.threads[i]).value.request), i, th)
    ensures Conserved(s')
  {
    forall r | r in s.requests.Keys
      ensures Speakers(s', r) + s'.requests[r].finishes == Speakers(s, r) + s.requests[r].finishes
    {
      TotalMoved(Speaks(r), s.threads, i, th);
    }
  }

  lemma FinishLeavesOthers(s: State, s': State, i: nat, th: Thread)
    requires Structure(s) && i < |s.threads| && Held(s.threads[i]).Some? && Held(th).None?
    requires Live(s, Held(s.threads[i]).value.request)
    requires s' == Moved(Finished(s, Held(s.threads[i]).value.request), i, th)
    ensures TreeOk(s') && QueueOk(s')
    ensures forall j :: 0 <= j < |s.threads| ==> HeldOk(s', s'.threads[j])
  {
    var r := Held(s.threads[i]).value.request;
    SoleHolder(s, i, r);
    forall j | 0 <= j < |s.threads| ensures HeldOk(s', s'.threads[j]) {
      assert HeldOk(s, s.threads[j]);
    }
  }

  /** The request of the task in hand is finished and the task destroyed. */
  lemma Finishes(s: State, s': State, i: nat, th: Thread)
    requires Structure(s) && i < |s.threads| && Held(s.threads[i]).Some? && Held(th).None?
    requires s' == Moved(Finished(s, Held(s.threads[i]).value.request), i, th)
    requires SameRole(s.threads[i], th) && (i == 0 ==> LoopOk(s, th))
    ensures Structure(s')
  {
    assert HeldOk(s, s.threads[i]);
    FinishConserves(s, s', i, th);
    FinishLeavesOthers(s, s', i, th);
    assert forall r :: Live(s', r) ==> Live(s, r);
  }

  /** The handler's task takes over: its id is the socket again, its chain still ends in finish_request. */
  lemma HandsOver(s: State, i: nat, task: Task, ret: Return)
    requires Structure(s) && i < |s.threads| && ActivityOf(s.threads[i]) == Some(Calling(task))
    requires task.handle.Some? && task.handle.value != FinishRequest && CanReturn(task.handle.value, ret)
    ensures var (id, allocator) :=
              if ret.Null? then (0, s.idAllocator)
              else NextId(s.taskQueue.Keys, s.idAllocator, s.requests[task.request].sock);
            var next := AfterCall(task, ret, id);
            && next.Some? && next.value.request == task.request
            && Owned(s, next.value) && Runnable(next.value)
  {
    assert HeldOk(s, s.threads[i]);
    SoleHolder(s, i, task.request);
    var id := if ret.Null? then 0 else NextId(s.taskQueue.Keys, s.idAllocator, s.requests[task.request].sock).0;
    CallKeepsTheChain(task, ret, id);
  }

  /** The handler call. */
  lemma Calls(s: State, s': State, i: nat, task: Task, ret: Return)
    requires Structure(s) && i < |s.threads| && ActivityOf(s.threads[i]) == Some(Calling(task))
    requires task.handle.Some? && task.request in s.requests.Keys && CanReturn(task.handle.value, ret)
    requires s' == Called(s, i, task, ret)
    ensures Structure(s')
  {
    assert HeldOk(s, s.threads[i]);
    if task.handle.value == FinishRequest {
      CallKeepsTheChain(task, ret, 0);
      Finishes(s, s', i, Resume(s.threads[i], None));
    } else {
      CallGoesOn(s, s', i, task, ret);
      hide Called, CanReturn;
    }
  }

  /** The handler call, if it does not finish the request. */
  lemma CallGoesOn(s: State, s': State, i: nat, task: Task, ret: Return)
    requires Structure(s) && i < |s.threads| && ActivityOf(s.threads[i]) == Some(Calling(task))
    requires task.handle.Some? && task.handle.value != FinishRequest && task.request in s.requests.Keys
    requires CanReturn(task.handle.value, ret)
    requires s' == Called(s, i, task, ret)
    ensures Structure(s')
  {
    HandsOver(s, i, task, ret);
    var th := s'.threads[i];
    assert Held(th).Some? && Held(th).value.request == task.request && SameRole(s.threads[i], th);
    hide CanReturn, AfterCall;
    ThreadMoves(s, s', i, th);
  }

  /** The whole of a thread's activity on a task. */
  lemma Acts(s: State, s': State, i: nat, act: Activity, choice: Choice)
    requires Structure(s) && CanStep(s, i, choice) && ActivityOf(s.threads[i]) == Some(act)
    requires s' == ActivityStep(s, i, act, choice)
    ensures Structure(s')
  {
    match act
    case Calling(task) => Calls(s, s', i, task, choice.ret);
    case Inserting(task) => Inserts(s, s', i, task, Resume(s.threads[i], Some(Counting)));
    case Counting => ThreadMoves(s, s', i, Resume(s.threads[i], Some(Posting)));
    case Posting => ThreadMoves(s, s', i, Resume(s.threads[i], None));
  }

  /** The walk over the task tree: every slot belongs to a task of the tree. */
  lemma Collects(s: State, s': State, choice: Choice)
    requires Structure(s) && s.threads[0] == LoopCollect && T.IsTraversal(choice.order, s.taskQueue)
    requires s' == Moved(s, 0, LoopPoll(Slots(TasksOf(choice.order), choice.clocks, s.limit), 0,
                                        DueNow(s.taskQueue, choice.clocks, s.limit)))
    ensures Structure(s')
  {
    var tasks := TasksOf(choice.order);
    var slots := Slots(tasks, choice.clocks, s.limit);
    forall j | 0 <= j < |slots| ensures slots[j].id in s.taskQueue.Keys {
      SlotOwner(tasks, choice.clocks, s.limit, j);
      var n :| 0 <= n < |tasks| && tasks[n].id == slots[j].id;
      assert choice.order[n].0 in s.taskQueue.Keys;
    }
    ThreadMoves(s, s', 0, s'.threads[0]);
  }

  /** antd_task_schedule: a task past its validity ends its request, any other goes on with a handle. */
  lemma Validates(s: State, s': State, task: Task, due: map<int, Task>)
    requires Structure(s) && s.threads[0] == LoopValidate(task, due) && task.request in s.requests.Keys
    requires s' == if Expired(task, s.clock, s.limit) then Moved(Finished(s, task.request), 0, LoopDeploy(due))
                   else Moved(s, 0, if s.nWorkers == 0 then LoopBusy(Calling(task), due) else LoopEnqueue(task, due))
    ensures Structure(s')
  {
    assert HeldOk(s, s.threads[0]);
    if Expired(task, s.clock, s.limit) {
      Finishes(s, s', 0, LoopDeploy(due));
    } else {
      ThreadMoves(s, s', 0, s'.threads[0]);
    }
  }

  lemma WorkerKeepsStructure(s: State, i: nat, choice: Choice)
    requires Structure(s) && CanStep(s, i, choice) && IsWorker(s.threads[i])
    ensures Structure(ThreadStep(s, i, choice))
  {
    var s' := ThreadStep(s, i, choice);
    if s.threads[i].WorkerDequeue? && s.workersQueue != [] {
      Dequeues(s, s', i);
    } else if s.threads[i].WorkerBusy? {
      Acts(s, s', i, s.threads[i].act, choice);
    } else {
      ThreadMoves(s, s', i, s'.threads[i]);
    }
  }

  /** The steps of a round that take the schedule apart. */
  lemma DeploymentKeepsStructure(s: State, choice: Choice)
    requires Structure(s) && CanStep(s, 0, choice)
    requires s.threads[0].LoopDeploy? || s.threads[0].LoopValidate? || s.threads[0].LoopEnqueue?
    ensures Structure(ThreadStep(s, 0, choice))
  {
    var s' := ThreadStep(s, 0, choice);
    var th := s.threads[0];
    if th.LoopEnqueue? {
      Enqueues(s, s', th.task, th.due);
    } else if th.LoopValidate? {
      assert HeldOk(s, th);
      Validates(s, s', th.task, th.due);
    } else if j :| j in th.due.Keys {
      Deploys(s, s', Least(th.due.Keys), th.due);
    } else {
      ThreadMoves(s, s', 0, s'.threads[0]);
    }
  }

  /** The steps that only move the event loop on. */
  lemma TurnKeepsStructure(s: State, choice: Choice)
    requires Structure(s) && CanStep(s, 0, choice)
    requires match s.threads[0]
             case LoopCheck | LoopIdle | LoopSleep => true
             case LoopUncount(_, _) | LoopWake(_) => true
             case LoopPoll(slots, next, _) => next >= |slots| || !choice.examine
             case _ => false
    ensures Structure(ThreadStep(s, 0, choice))
  {
    var s' := ThreadStep(s, 0, choice);
    ThreadMoves(s, s', 0, s'.threads[0]);
  }

  lemma LoopKeepsStructure(s: State, choice: Choice)
    requires Structure(s) && CanStep(s, 0, choice)
    ensures Structure(ThreadStep(s, 0, choice))
  {
    var s' := ThreadStep(s, 0, choice);
    var th := s.threads[0];
    if th.LoopDeploy? || th.LoopValidate? || th.LoopEnqueue? {
      DeploymentKeepsStructure(s, choice);
    } else if th.LoopCollect? {
      Collects(s, s', choice);
    } else if th.LoopBusy? {
      Acts(s, s', 0, th.act, choice);
    } else if th.LoopPoll? && th.next < |th.slots| && choice.examine {
      Polls(s, s', choice.revents);
    } else {
      TurnKeepsStructure(s, choice);
    }
  }

  lemma ThreadKeepsStructure(s: State, i: nat, choice: Choice)
    requires Structure(s) && CanStep(s, i, choice)
    ensures Structure(ThreadStep(s, i, choice))
  {
    if i == 0 {
      LoopKeepsStructure(s, choice);
    } else if IsWorker(s.threads[i]) {
      WorkerKeepsStructure(s, i, choice);
    } else {
      Acts(s, ThreadStep(s, i, choice), i, s.threads[i].act, choice);
    }
  }

  /** `s'` is `s` with a new request and its adder. */
  ghost predicate Admits(s: State, s': State, task: Task)
  {
    && task.request !in s.requests.Keys && task.id !in s.taskQueue.Keys
    && CanAccept(s, task.request, task.id)
    && s' == s.(requests := s.requests[task.request := Request(task.id, 0)], idAllocator := s'.idAllocator,
                threads := s.threads + [Adder(Inserting(task))])
  }

  /** A new connection starts with one task whose chain is accept_request, then finish_request. */
  lemma AcceptKeepsStructure(s: State, r: nat, sock: int, events: seq<Event>)
    requires Structure(s) && CanAccept(s, r, sock)
    ensures Structure(Accepted(s, r, sock, events))
  {
    var s' := Accepted(s, r, sock, events);
    assert sock !in s.taskQueue.Keys;
    var task := Task(sock, r, Some(AcceptRequest), [FinishRequest], s.clock, events);
    assert Stack(task) == [AcceptRequest, FinishRequest];
    assert Stack(task)[..1] == [AcceptRequest];
    AcceptOwns(s, s', task);
    AcceptThreads(s, s', task);
    AcceptConserves(s, s', task);
  }

  lemma AcceptOwns(s: State, s': State, task: Task)
    requires Structure(s) && Admits(s, s', task)
    ensures TreeOk(s') && QueueOk(s') && RequestsOk(s')
  {}

  lemma AcceptThreads(s: State, s': State, task: Task)
    requires Structure(s) && Admits(s, s', task) && Runnable(task)
    ensures Roles(s') && ThreadsOk(s') && LoopOk(s', s'.threads[0])
  {}

  lemma AcceptConserves(s: State, s': State, task: Task)
    requires Structure(s) && Admits(s, s', task)
    ensures Conserved(s')
  {
    NobodySpeaksYet(s, task.request);
    forall q | q in s'.requests.Keys ensures Speakers(s', q) + s'.requests[q].finishes == 1 {
      TotalJoined(Speaks(q), s.threads, Adder(Inserting(task)));
    }
  }

  lemma NobodySpeaksYet(s: State, r: nat)
    requires Structure(s) && r !in s.requests.Keys
    ensures Queued(s.workersQueue, r) == 0 && Total(Speaks(r), s.threads) == 0
  {
    NoneQueued(s.workersQueue, r);
    FewWeigh(Speaks(r), s.threads, 0);
  }
}

module WakeupProofs {
  import opened Tasks
  import opened Readiness
  import opened Scheduler
  import opened SchedulerInvariant
  import opened StructureProofs

  /** What a step of thread `i` may do to the counters, the semaphores and the sizes, in terms of
      what the thread weighs before and after it. */
  ghost predicate Effect(s: State, s': State, i: nat)
  {
    && i < |s.threads| && |s'.threads| == |s.threads| && s'.threads == s.threads[i := s'.threads[i]]
    && s'.status == s.status && s'.stopper == s.stopper && s'.nWorkers == s.nWorkers
    && var th, th' := s.threads[i], s'.threads[i];
    && (s.status ==> !th'.WorkerExit? && !th'.LoopExit?)
    // the task tree and pending_task
    && s'.pending == s.pending + Weigh(ToCount, th) - Weigh(ToUncount, th)
    && |s'.taskQueue.Keys| == |s.taskQueue.Keys| + Weigh(ToCount, th') - Weigh(ToUncount, th')
    // the workers' queue and semaphore
    && (s.status ==>
          || s'.workersQueue == []
          || |s'.workersQueue| + s.workerSem + Weigh(ToWake, th) + Weigh(Awake, th)
             <= |s.workersQueue| + s'.workerSem + Weigh(ToWake, th') + Weigh(Awake, th'))
    && (!s.status ==> s.workerSem + Weigh(Blockable, th') <= s'.workerSem + Weigh(Blockable, th))
    // the event loop's semaphore
    && (if i == 0 then th'.LoopSleep? ==> s'.taskQueue.Keys == {}
        else
          && s.schedulerSem + Weigh(ToPost, th) <= s'.schedulerSem + Weigh(ToPost, th')
          && (s'.taskQueue.Keys != {} ==> s.taskQueue.Keys != {} || Weigh(ToPost, th') > 0))
  }

  lemma NewKey(m: map<int, Task>, k: int, task: Task)
    requires k !in m.Keys
    ensures |m[k := task].Keys| == |m.Keys| + 1 && k in m[k := task].Keys
  {
    assert m[k := task].Keys == m.Keys + {k};
  }

  lemma InsertEffect(s: State, s': State, i: nat, task: Task)
    requires i < |s.threads| && ActivityOf(s.threads[i]) == Some(Inserting(task)) && task.id !in s.taskQueue.Keys
    requires s' == Moved(s.(taskQueue := s.taskQueue[task.id := task]), i, Resume(s.threads[i], Some(Counting)))
    ensures Effect(s, s', i)
  {
    NewKey(s.taskQueue, task.id, task);
  }

  lemma CallEffect(s: State, i: nat, task: Task, ret: Return)
    requires i < |s.threads| && ActivityOf(s.threads[i]) == Some(Calling(task))
    requires task.handle.Some? && task.request in s.requests.Keys
    ensures Effect(s, Called(s, i, task, ret), i)
  {}

  lemma CountEffect(s: State, i: nat, act: Activity, choice: Choice)
    requires i < |s.threads| && ActivityOf(s.threads[i]) == Some(act) && (act.Counting? || act.Posting?)
    ensures Effect(s, ActivityStep(s, i, act, choice), i)
  {}

  lemma ActivityEffect(s: State, i: nat, choice: Choice)
    requires Structure(s) && CanStep(s, i, choice) && ActivityOf(s.threads[i]).Some?
    ensures Effect(s, ThreadStep(s, i, choice), i)
  {
    var s' := ThreadStep(s, i, choice);
    var act := ActivityOf(s.threads[i]).value;
    assert s' == ActivityStep(s, i, act, choice);
    match act
    case Calling(task) => CallEffect(s, i, task, choice.ret);
    case Inserting(task) =>
      Inserts(s, s', i, task, Resume(s.threads[i], Some(Counting)));
      InsertEffect(s, s', i, task);
    case _ => CountEffect(s, i, act, choice);
  }

  lemma WorkerEffect(s: State, i: nat, choice: Choice)
    requires 0 < i && CanStep(s, i, choice) && IsWorker(s.threads[i]) && ActivityOf(s.threads[i]).None?
    ensures Effect(s, ThreadStep(s, i, choice), i)
  {}

  lemma DeployEffect(s: State, s': State, k: int, due: map<int, Task>)
    requires 0 < |s.threads| && s.threads[0] == LoopDeploy(due)
    requires k in due.Keys && due[k].id == k && k in s.taskQueue.Keys
    requires s' == Moved(s.(taskQueue := s.taskQueue - {due[k].id}), 0, LoopUncount(due[k], due - {k}))
    ensures Effect(s, s', 0)
  {
    assert s'.taskQueue.Keys == s.taskQueue.Keys - {k};
  }

  lemma PollEffect(s: State, revents: Revents)
    requires 0 < |s.threads| && s.threads[0].LoopPoll? && s.threads[0].next < |s.threads[0].slots|
    requires PollStep(s, 0, revents).taskQueue.Keys == s.taskQueue.Keys
    ensures Effect(s, PollStep(s, 0, revents), 0)
  {}

  /** The steps of the event loop that leave the task tree alone. */
  lemma QuietLoopEffect(s: State, choice: Choice)
    requires CanStep(s, 0, choice) && IsLoop(s.threads[0]) && ActivityOf(s.threads[0]).None?
    requires s.threads[0].LoopDeploy? ==> forall k :: k !in s.threads[0].due.Keys
    requires s.threads[0].LoopPoll? ==> s.threads[0].next >= |s.threads[0].slots| || !choice.examine
    ensures Effect(s, ThreadStep(s, 0, choice), 0)
  {
    var th := s.threads[0];
    if th.LoopUncount? || th.LoopValidate? || th.LoopEnqueue? || th.LoopWake? {
      DelegationEffect(s, choice);
    } else {
      TurnEffect(s, choice);
    }
  }

  lemma DelegationEffect(s: State, choice: Choice)
    requires CanStep(s, 0, choice)
    requires s.threads[0].LoopUncount? || s.threads[0].LoopValidate? || s.threads[0].LoopEnqueue? || s.threads[0].LoopWake?
    ensures Effect(s, ThreadStep(s, 0, choice), 0)
  {}

  lemma TurnEffect(s: State, choice: Choice)
    requires CanStep(s, 0, choice)
    requires match s.threads[0]
             case LoopCheck | LoopCollect | LoopIdle | LoopSleep => true
             case LoopPoll(slots, next, _) => next >= |slots| || !choice.examine
             case LoopDeploy(due) => forall k :: k !in due.Keys
             case _ => false
    ensures Effect(s, ThreadStep(s, 0, choice), 0)
  {}

  lemma LoopEffect(s: State, choice: Choice)
    requires Structure(s) && CanStep(s, 0, choice) && ActivityOf(s.threads[0]).None?
    ensures Effect(s, ThreadStep(s, 0, choice), 0)
  {
    var th := s.threads[0];
    if th.LoopDeploy? {
      DeploymentEffect(s, choice);
    } else if th.LoopPoll? && th.next < |th.slots| && choice.examine {
      Polls(s, ThreadStep(s, 0, choice), choice.revents);
      PollEffect(s, choice.revents);
    } else {
      QuietLoopEffect(s, choice);
    }
  }

  lemma DeploymentEffect(s: State, choice: Choice)
    requires Structure(s) && CanStep(s, 0, choice) && s.threads[0].LoopDeploy?
    ensures Effect(s, ThreadStep(s, 0, choice), 0)
  {
    var due := s.threads[0].due;
    if j :| j in due.Keys {
      var k := Least(due.Keys);
      Deploys(s, ThreadStep(s, 0, choice), k, due);
      DeployEffect(s, ThreadStep(s, 0, choice), k, due);
    } else {
      QuietLoopEffect(s, choice);
    }
  }

  lemma StepEffect(s: State, i: nat, choice: Choice)
    requires Structure(s) && CanStep(s, i, choice)
    ensures Effect(s, ThreadStep(s, i, choice), i)
  {
    if ActivityOf(s.threads[i]).Some? {
      ActivityEffect(s, i, choice);
    } else if i == 0 {
      LoopEffect(s, choice);
    } else {
      WorkerEffect(s, i, choice);
    }
  }

  lemma PendingKept(s: State, s': State, i: nat)
    requires PendingOk(s) && Effect(s, s', i)
    ensures PendingOk(s')
  {
    TotalMoved(ToCount, s.threads, i, s'.threads[i]);
    TotalMoved(ToUncount, s.threads, i, s'.threads[i]);
  }

  lemma WorkersWokenKept(s: State, s': State, i: nat)
    requires WorkersWoken(s) && Effect(s, s', i)
    ensures WorkersWoken(s')
  {
    TotalMoved(ToWake, s.threads, i, s'.threads[i]);
    TotalMoved(Awake, s.threads, i, s'.threads[i]);
  }

  lemma LoopWokenKept(s: State, s': State, i: nat)
    requires LoopWoken(s) && Effect(s, s', i)
    ensures LoopWoken(s')
  {
    TotalMoved(ToPost, s.threads, i, s'.threads[i]);
    TotalOfOne(ToPost, s'.threads, i);
  }

  lemma StopCoversKept(s: State, s': State, i: nat)
    requires StopCovers(s) && Effect(s, s', i)
    ensures StopCovers(s')
  {
    TotalMoved(Blockable, s.threads, i, s'.threads[i]);
  }
}

/** The invariant holds in every reachable state. */
module Reachability {
  import opened Tasks
  import opened Scheduler
  import opened SchedulerInvariant
  import opened StructureProofs
  import opened WakeupProofs

  lemma {:induction false} IdleWorkersWeigh(m: Metric, n: nat)
    requires m == ToCount || m == ToUncount
    ensures Total(m, seq(n, _ => WorkerCheck)) == 0
  {
    if n > 0 {
      assert seq(n, _ => WorkerCheck)[1..] == seq(n - 1, _ => WorkerCheck);
      IdleWorkersWeigh(m, n - 1);
    }
  }

  lemma InitInv(s: State)
    requires Init(s)
    ensures Inv(s)
  {
    assert s.threads[1..] == seq(s.nWorkers, _ => WorkerCheck);
    IdleWorkersWeigh(ToCount, s.nWorkers);
    IdleWorkersWeigh(ToUncount, s.nWorkers);
  }

  /** The posts of stop() are as many as the workers that can still block. */
  lemma StopInv(s: State)
    requires Inv(s) && CanStop(s)
    ensures Inv(StopStep(s))
  {
    if s.stopper.Running? {
      FewWeigh(Blockable, s.threads[1..], s.nWorkers);
    }
    StopKeepsStructure(s, StopStep(s));
  }

  lemma StopKeepsStructure(s: State, s': State)
    requires Structure(s)
    requires s' == s.(status := s'.status, workerSem := s'.workerSem, schedulerSem := s'.schedulerSem,
                      stopper := s'.stopper)
    ensures Structure(s')
  {
    assert forall r :: r in s.requests.Keys ==> Speakers(s', r) == Speakers(s, r);
  }

  lemma AcceptInv(s: State, r: nat, sock: int, events: seq<Event>)
    requires Inv(s) && CanAccept(s, r, sock)
    ensures Inv(Accepted(s, r, sock, events))
  {
    var s' := Accepted(s, r, sock, events);
    var adder := s'.threads[|s.threads|];
    AcceptKeepsStructure(s, r, sock, events);
    TotalJoined(ToCount, s.threads, adder);
    TotalJoined(ToUncount, s.threads, adder);
    TotalJoined(ToWake, s.threads, adder);
    TotalJoined(Awake, s.threads, adder);
    TotalJoined(ToPost, s.threads, adder);
    TotalJoined(Blockable, s.threads, adder);
  }

  lemma ThreadInv(s: State, i: nat, choice: Choice)
    requires Inv(s) && CanStep(s, i, choice)
    ensures Inv(ThreadStep(s, i, choice))
  {
    var s' := ThreadStep(s, i, choice);
    ThreadKeepsStructure(s, i, choice);
    StepEffect(s, i, choice);
    PendingKept(s, s', i);
    WorkersWokenKept(s, s', i);
    LoopWokenKept(s, s', i);
    StopCoversKept(s, s', i);
  }

  lemma TickInv(s: State, now: int)
    requires Inv(s) && now >= s.clock
    ensures Inv(s.(clock := now))
  {
    assert forall r :: r in s.requests.Keys ==> Speakers(s.(clock := now), r) == Speakers(s, r);
  }

  lemma StepInv(s: State, l: Label)
    requires Inv(s) && Enabled(s, l)
    ensures Inv(Apply(s, l))
  {
    match l
    case Run(i, choice) => ThreadInv(s, i, choice);
    case Accept(r, sock, events) => AcceptInv(s, r, sock, events);
    case Tick(now) => TickInv(s, now);
    case Stop => StopInv(s);
  }

  lemma {:induction false} RunInv(states: seq<State>, labels: seq<Label>, n: nat)
    requires IsRun(states, labels) && n < |states|
    ensures Inv(states[n])
  {
    if n == 0 {
      InitInv(states[0]);
    } else {
      RunInv(states, labels, n - 1);
      StepInv(states[n - 1], labels[n - 1]);
    }
  }

  lemma ReachableInv(s: State)
    requires Reachable(s)
    ensures Inv(s)
  {
    var states, labels :| IsRun(states, labels) && states[|labels|] == s;
    RunInv(states, labels, |labels|);
  }
}
