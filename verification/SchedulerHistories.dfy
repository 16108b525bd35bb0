/** Where tasks come from, and which calls are made for a request over a whole run. */
module Histories {
  import opened Tasks
  import opened Readiness
  import opened Scheduler
  import opened SchedulerInvariant
  import opened Reachability
  import opened StructureProofs
  import opened Identifiers
  import opened SchedulerTheorems

  // ---- Where tasks come from --------------------------------------------------------------

  /** The task is handed on as it is, or as a hang-up leaves it. */
  predicate Handed(task: Task, task': Task)
  {
    task' == task || task' == task.(handle := None, accessTime := 0)
  }

  ghost predicate Carried(s: State, task': Task)
  {
    exists p :: At(s, p).Some? && Handed(At(s, p).value, task')
  }

  /** The call this step makes, if it makes one. */
  function CallIn(s: State, l: Label): Option<(Task, Return)>
  {
    if l.Run? && l.thread < |s.threads| && ActivityOf(s.threads[l.thread]).Some?
       && ActivityOf(s.threads[l.thread]).value.Calling?
    then Some((ActivityOf(s.threads[l.thread]).value.task, l.choice.ret)) else None
  }

  lemma Keeps(s: State, p: Place, task': Task)
    requires At(s, p).Some? && Handed(At(s, p).value, task')
    ensures Carried(s, task')
  {
  }

  /** A step that touches neither the task tree nor the queue, and takes no task into its hands. */
  ghost predicate Quiet(s: State, s': State, i: nat)
  {
    && i < |s.threads| == |s'.threads| && s'.threads == s.threads[i := s'.threads[i]]
    && s'.taskQueue == s.taskQueue && s'.workersQueue == s.workersQueue
    && (Held(s'.threads[i]).None? || Held(s'.threads[i]) == Held(s.threads[i]))
  }

  lemma QuietCarries(s: State, s': State, i: nat, p': Place)
    requires Quiet(s, s', i) && At(s', p').Some?
    ensures Carried(s, At(s', p').value)
  {
    hide Held;
    Keeps(s, p', At(s', p').value);
  }

  lemma ActivityIsQuiet(s: State, i: nat, choice: Choice)
    requires CanStep(s, i, choice) && (ActivityOf(s.threads[i]) == Some(Counting) || ActivityOf(s.threads[i]) == Some(Posting))
    ensures Quiet(s, ThreadStep(s, i, choice), i)
  {
    assert ThreadStep(s, i, choice) == ActivityStep(s, i, ActivityOf(s.threads[i]).value, choice);
  }

  /** An insertion moves the task in hand to the task tree. */
  lemma InsertionCarries(s: State, i: nat, task: Task, choice: Choice, p': Place)
    requires CanStep(s, i, choice) && ActivityOf(s.threads[i]) == Some(Inserting(task))
    requires At(ThreadStep(s, i, choice), p').Some?
    ensures Carried(s, At(ThreadStep(s, i, choice), p').value)
  {
    hide CanReturn, AfterCall;
    var s' := ThreadStep(s, i, choice);
    assert s' == ActivityStep(s, i, Inserting(task), choice);
    Keeps(s, if p' == Waiting(task.id) then InHand(i) else p', At(s', p').value);
  }

  lemma WorkerCarries(s: State, i: nat, choice: Choice, p': Place)
    requires CanStep(s, i, choice) && IsWorker(s.threads[i]) && !s.threads[i].WorkerBusy?
    requires At(ThreadStep(s, i, choice), p').Some?
    ensures Carried(s, At(ThreadStep(s, i, choice), p').value)
  {
    var s' := ThreadStep(s, i, choice);
    var task' := At(s', p').value;
    if s.threads[i].WorkerDequeue? && s.workersQueue != [] {
      match p'
      case InHand(k) => Keeps(s, if k == i then Ready(0) else p', task');
      case Ready(j) => Keeps(s, Ready(j + 1), task');
      case Waiting(_) => Keeps(s, p', task');
    } else {
      Keeps(s, p', task');
    }
  }

  lemma PollCarries(s: State, choice: Choice, p': Place)
    requires CanStep(s, 0, choice) && s.threads[0].LoopPoll?
    requires At(ThreadStep(s, 0, choice), p').Some?
    ensures Carried(s, At(ThreadStep(s, 0, choice), p').value)
  {
    hide Judge;
    Keeps(s, p', At(ThreadStep(s, 0, choice), p').value);
  }

  lemma DeployCarries(s: State, choice: Choice, p': Place)
    requires Inv(s) && CanStep(s, 0, choice) && s.threads[0].LoopDeploy?
    requires At(ThreadStep(s, 0, choice), p').Some?
    ensures Carried(s, At(ThreadStep(s, 0, choice), p').value)
  {
    var due, s' := s.threads[0].due, ThreadStep(s, 0, choice);
    assert DueOk(s, due);
    var taken := p' == InHand(0) && Held(s'.threads[0]).Some?;
    Keeps(s, if taken then Waiting(Least(due.Keys)) else p', At(s', p').value);
  }

  lemma EnqueueCarries(s: State, choice: Choice, p': Place)
    requires CanStep(s, 0, choice) && s.threads[0].LoopEnqueue?
    requires At(ThreadStep(s, 0, choice), p').Some?
    ensures Carried(s, At(ThreadStep(s, 0, choice), p').value)
  {
    var s' := ThreadStep(s, 0, choice);
    Keeps(s, if p' == Ready(|s.workersQueue|) then InHand(0) else p', At(s', p').value);
  }

  lemma TurnIsQuiet(s: State, choice: Choice)
    requires CanStep(s, 0, choice) && IsLoop(s.threads[0]) && !s.threads[0].LoopBusy?
    requires !s.threads[0].LoopPoll? && !s.threads[0].LoopDeploy? && !s.threads[0].LoopEnqueue?
    ensures Quiet(s, ThreadStep(s, 0, choice), 0)
  {
    hide Slots, DueNow, CanReturn, AfterCall, Expired;
  }

  lemma WhoSteps(s: State, i: nat, choice: Choice)
    requires Inv(s) && CanStep(s, i, choice)
    ensures i < |s.threads|
    ensures ActivityOf(s.threads[i]).None? ==>
              if i == 0 then IsLoop(s.threads[0]) && !s.threads[0].LoopBusy?
              else IsWorker(s.threads[i]) && !s.threads[i].WorkerBusy?
  {
  }

  /** But for calls and new connections, every task anywhere was somewhere before the step. */
  lemma StepCarries(s: State, i: nat, choice: Choice, p': Place)
    requires Inv(s) && CanStep(s, i, choice) && CallIn(s, Run(i, choice)).None?
    requires At(ThreadStep(s, i, choice), p').Some?
    ensures Carried(s, At(ThreadStep(s, i, choice), p').value)
  {
    hide Carried, ThreadStep, CanStep, Inv, Quiet, At;
    WhoSteps(s, i, choice);
    var act := ActivityOf(s.threads[i]);
    if act.Some? && act.value.Inserting? {
      InsertionCarries(s, i, act.value.task, choice, p');
    } else if act.Some? {
      ActivityIsQuiet(s, i, choice);
      QuietCarries(s, ThreadStep(s, i, choice), i, p');
    } else if i > 0 {
      WorkerCarries(s, i, choice, p');
    } else if s.threads[0].LoopPoll? {
      PollCarries(s, choice, p');
    } else if s.threads[0].LoopDeploy? {
      DeployCarries(s, choice, p');
    } else if s.threads[0].LoopEnqueue? {
      EnqueueCarries(s, choice, p');
    } else {
      TurnIsQuiet(s, choice);
      QuietCarries(s, ThreadStep(s, 0, choice), 0, p');
    }
  }

  lemma StopCarries(s: State, p': Place)
    requires CanStop(s) && At(StopStep(s), p').Some?
    ensures Carried(s, At(StopStep(s), p').value)
  {
    Keeps(s, p', At(StopStep(s), p').value);
  }

  /** The task antd_monitor makes for a new connection. */
  function Newcomer(s: State, l: Label): Option<Task>
  {
    match l
    case Accept(r, sock, events) =>
      Some(Task(NextId(s.taskQueue.Keys, s.idAllocator, sock).0, r, Some(AcceptRequest), [FinishRequest], s.clock, events))
    case _ => None
  }

  predicate JustCame(s: State, l: Label, p: Place, task: Task)
  {
    p == InHand(|s.threads|) && Newcomer(s, l) == Some(task)
  }

  lemma AcceptCarries(s: State, l: Label, p': Place)
    requires l.Accept? && Enabled(s, l) && At(Apply(s, l), p').Some?
    ensures JustCame(s, l, p', At(Apply(s, l), p').value) || Carried(s, At(Apply(s, l), p').value)
  {
    if p' != InHand(|s.threads|) {
      Keeps(s, p', At(Apply(s, l), p').value);
    }
  }

  /** Tasks are made by calls and by new connections, and by nothing else: every other task was there before the
      step, the same in every field, unless a hang-up took its handle. */
  lemma WhereTasksComeFrom(s: State, l: Label, p': Place)
    requires Inv(s) && Enabled(s, l) && CallIn(s, l).None? && At(Apply(s, l), p').Some?
    ensures JustCame(s, l, p', At(Apply(s, l), p').value) || Carried(s, At(Apply(s, l), p').value)
  {
    hide Carried, ThreadStep, CanStep, Inv, At, CallIn, JustCame, CanStop, CanAccept;
    match l
    case Run(i, choice) => StepCarries(s, i, choice, p');
    case Accept(_, _, _) => AcceptCarries(s, l, p');
    case Tick(_) => TickCarries(s, l, p');
    case Stop => StopCarries(s, p');
  }

  lemma TickCarries(s: State, l: Label, p': Place)
    requires l.Tick? && Enabled(s, l) && At(Apply(s, l), p').Some?
    ensures Carried(s, At(Apply(s, l), p').value)
  {
    Keeps(s, p', At(Apply(s, l), p').value);
  }

  // ---- Calls ------------------------------------------------------------------------------

  /** What a call leaves behind: the handler's stack is popped and the returned one pushed; the thread goes on with
      the task that has still something to call, under the id of its request's socket, or the request is finished. */
  ghost predicate CallDone(s: State, i: nat, task: Task, ret: Return, s': State)
    requires i < |s.threads| == |s'.threads| && task.request in s.requests.Keys && task.handle.Some?
  {
    var rest := Pushed(ret) + Stack(task)[1..];
    && s'.taskQueue == s.taskQueue && s'.workersQueue == s.workersQueue
    && (forall j :: 0 <= j < |s.threads| && j != i ==> s'.threads[j] == s.threads[j])
    && (task.handle.value == FinishRequest <==> rest == [])
    && if rest == [] then s'.requests == Finished(s, task.request).requests && Held(s'.threads[i]).None?
       else
         && s'.requests == s.requests
         && ActivityOf(s'.threads[i]).Some? && ActivityOf(s'.threads[i]).value.Inserting?
         && var next := ActivityOf(s'.threads[i]).value.task;
            && next.request == task.request && next.id == s.requests[task.request].sock
            && next.handle.Some? && Stack(next) == rest
            && next.accessTime == (if ret.Null? then task.accessTime else ret.accessTime)
            && next.events == (if ret.Null? then task.events else ret.events)
  }

  lemma CallIsCalled(s: State, i: nat, choice: Choice)
    requires CanStep(s, i, choice) && CallIn(s, Run(i, choice)).Some?
    ensures i < |s.threads|
    ensures var task := CallIn(s, Run(i, choice)).value.0;
            && task.handle.Some? && task.request in s.requests.Keys && CanReturn(task.handle.value, choice.ret)
            && ThreadStep(s, i, choice) == Called(s, i, task, choice.ret)
            && ActivityOf(s.threads[i]) == Some(Calling(task))
  {
  }

  /** The task a call hands on, if any. */
  function NextOf(s: State, task: Task, ret: Return): Option<Task>
    requires task.request in s.requests.Keys
  {
    AfterCall(task, ret,
              if ret.Null? then 0 else NextId(s.taskQueue.Keys, s.idAllocator, s.requests[task.request].sock).0)
  }

  lemma NextHasTheStack(s: State, i: nat, task: Task, ret: Return)
    requires Inv(s) && i < |s.threads| && ActivityOf(s.threads[i]) == Some(Calling(task))
    requires task.handle.Some? && task.request in s.requests.Keys && CanReturn(task.handle.value, ret)
    ensures var rest, next := Pushed(ret) + Stack(task)[1..], NextOf(s, task, ret);
            && (task.handle.value == FinishRequest <==> rest == []) && (rest == [] <==> next.None?)
            && (next.Some? ==>
                  && next.value.request == task.request && next.value.id == s.requests[task.request].sock
                  && next.value.handle.Some? && Stack(next.value) == rest
                  && next.value.accessTime == (if ret.Null? then task.accessTime else ret.accessTime)
                  && next.value.events == (if ret.Null? then task.events else ret.events))
  {
    hide AfterCall, CanReturn, Pushed, Stack;
    var id := if ret.Null? then 0 else NextId(s.taskQueue.Keys, s.idAllocator, s.requests[task.request].sock).0;
    CalledIsWellChained(s, i, task);
    CallIsAStackStep(task, ret, id);
    CallKeepsTheChain(task, ret, id);
    if task.handle.value != FinishRequest {
      HandsOver(s, i, task, ret);
    }
  }

  lemma CalledIsWellChained(s: State, i: nat, task: Task)
    requires Inv(s) && i < |s.threads| && ActivityOf(s.threads[i]) == Some(Calling(task)) && task.handle.Some?
    ensures WellChained(task)
  {
    assert HeldOk(s, s.threads[i]);
  }

  lemma CallLeaves(s: State, i: nat, task: Task, ret: Return)
    requires i < |s.threads| && ActivityOf(s.threads[i]) == Some(Calling(task))
    requires task.handle.Some? && task.request in s.requests.Keys
    ensures var s', next := Called(s, i, task, ret), NextOf(s, task, ret);
            && |s'.threads| == |s.threads| && s'.taskQueue == s.taskQueue && s'.workersQueue == s.workersQueue
            && (forall j :: 0 <= j < |s.threads| && j != i ==> s'.threads[j] == s.threads[j])
            && s'.requests == (if task.handle.value == FinishRequest then Finished(s, task.request).requests else s.requests)
            && (if next.Some? then ActivityOf(s'.threads[i]) == Some(Inserting(next.value)) else Held(s'.threads[i]).None?)
  {
    hide AfterCall;
  }

  /** That is what every call leaves behind. */
  lemma CallOutcome(s: State, i: nat, choice: Choice)
    requires Inv(s) && CanStep(s, i, choice) && CallIn(s, Run(i, choice)).Some?
    ensures var task, s' := CallIn(s, Run(i, choice)).value.0, ThreadStep(s, i, choice);
            && i < |s.threads| == |s'.threads| && task.request in s.requests.Keys && task.handle.Some?
            && CallDone(s, i, task, choice.ret, s')
  {
    hide CanStep, ThreadStep, CallIn, CanReturn, Inv, NextOf, Called, Pushed, Stack;
    CallIsCalled(s, i, choice);
    var task, ret := CallIn(s, Run(i, choice)).value.0, choice.ret;
    NextHasTheStack(s, i, task, ret);
    CallLeaves(s, i, task, ret);
  }

  // ---- Requests last ----------------------------------------------------------------------

  ghost predicate Grown(s: State, s': State)
  {
    forall r :: r in s.requests.Keys ==>
      r in s'.requests.Keys && s'.requests[r].sock == s.requests[r].sock && s'.requests[r].finishes >= s.requests[r].finishes
  }

  lemma ActivityGrows(s: State, i: nat, choice: Choice)
    requires CanStep(s, i, choice) && ActivityOf(s.threads[i]).Some?
    ensures Grown(s, ThreadStep(s, i, choice))
  {
    hide CanReturn, AfterCall;
    assert ThreadStep(s, i, choice) == ActivityStep(s, i, ActivityOf(s.threads[i]).value, choice);
  }

  lemma OthersGrow(s: State, i: nat, choice: Choice)
    requires CanStep(s, i, choice) && ActivityOf(s.threads[i]).None?
    ensures Grown(s, ThreadStep(s, i, choice))
  {
    hide ActivityStep, CanReturn, Judge, Slots, DueNow, Expired;
  }

  /** No step forgets a request, changes its socket or takes a finish back. */
  lemma RequestsGrow(s: State, l: Label)
    requires Enabled(s, l)
    ensures Grown(s, Apply(s, l))
  {
    if l.Run? {
      StepGrows(s, l.thread, l.choice);
      hide ThreadStep, CanStep;
    }
  }

  lemma StepGrows(s: State, i: nat, choice: Choice)
    requires CanStep(s, i, choice)
    ensures Grown(s, ThreadStep(s, i, choice))
  {
    hide ThreadStep, Grown, CanReturn;
    if ActivityOf(s.threads[i]).Some? {
      ActivityGrows(s, i, choice);
    } else {
      OthersGrow(s, i, choice);
    }
  }

  // ---- The calls made for a request -------------------------------------------------------

  datatype Call = Call(handle: Handle, ret: Return)

  /** The call this step makes for request r. */
  function NewCall(s: State, l: Label, r: nat): seq<Call>
  {
    match CallIn(s, l)
    case Some((task, ret)) => if task.request == r && task.handle.Some? then [Call(task.handle.value, ret)] else []
    case None => []
  }

  /** The calls made for request r in the first n steps. */
  function CallsFor(states: seq<State>, labels: seq<Label>, n: nat, r: nat): seq<Call>
    requires n <= |labels| && |states| == |labels| + 1
  {
    if n == 0 then [] else CallsFor(states, labels, n - 1, r) + NewCall(states[n - 1], labels[n - 1], r)
  }

  /** What is left to call after these calls: a request begins with accept_request and finish_request, and each call
      puts what its handler returned in its own place. */
  function Left(calls: seq<Call>): seq<Handle>
  {
    if calls == [] then [AcceptRequest, FinishRequest]
    else
      var before, ret := Left(calls[..|calls| - 1]), calls[|calls| - 1].ret;
      Pushed(ret) + if before == [] then [] else before[1..]
  }

  /** Each call is the one whose turn it was. */
  predicate InTurn(calls: seq<Call>)
  {
    forall i :: 0 <= i < |calls| ==> Left(calls[..i]) != [] && Left(calls[..i])[0] == calls[i].handle
  }

  /** Whether the handlers can return this. */
  predicate Possible(calls: seq<Call>)
  {
    forall i :: 0 <= i < |calls| ==> CanReturn(calls[i].handle, calls[i].ret)
  }

  function Only(handle: Option<Handle>): Return { Fresh(handle, [], 0, []) }

  /** The calls made so far are possible, each in its turn, and `left` is left. */
  predicate Made(calls: seq<Call>, left: seq<Handle>)
  {
    InTurn(calls) && Possible(calls) && Left(calls) == left
  }

  lemma OneCallMade(calls: seq<Call>, left: seq<Handle>, ret: Return, left': seq<Handle>)
    requires Made(calls, left) && left != [] && CanReturn(left[0], ret) && left' == Pushed(ret) + left[1..]
    ensures Made(calls + [Call(left[0], ret)], left')
  {
    hide CanReturn, InTurn, Left, Pushed;
    OneCallMore(calls, Call(left[0], ret));
  }

  lemma NothingMade()
    ensures Made([], [AcceptRequest, FinishRequest])
  {
  }

  /** The calls of every request up to the one that resolves it. */
  const RESOLVING: seq<Call> :=
    [Call(AcceptRequest, Only(Some(DecodeRequestHeader)))] + [Call(DecodeRequestHeader, Only(Some(DecodeRequest)))]
    + [Call(DecodeRequest, Only(Some(ResolveRequest)))]

  lemma Resolving()
    ensures Made(RESOLVING, [ResolveRequest, FinishRequest])
  {
    hide Made;
    NothingMade();
    var calls: seq<Call> := [];
    OneCallMade(calls, [AcceptRequest, FinishRequest], Only(Some(DecodeRequestHeader)), [DecodeRequestHeader, FinishRequest]);
    calls := calls + [Call(AcceptRequest, Only(Some(DecodeRequestHeader)))];
    OneCallMade(calls, [DecodeRequestHeader, FinishRequest], Only(Some(DecodeRequest)), [DecodeRequest, FinishRequest]);
    calls := calls + [Call(DecodeRequestHeader, Only(Some(DecodeRequest)))];
    OneCallMade(calls, [DecodeRequest, FinishRequest], Only(Some(ResolveRequest)), [ResolveRequest, FinishRequest]);
    assert calls + [Call(DecodeRequest, Only(Some(ResolveRequest)))] == RESOLVING;
  }

  /** A file is served by six calls. */
  lemma FileIsServed()
    ensures Made(RESOLVING + [Call(ResolveRequest, Only(Some(ServeFile)))] + [Call(ServeFile, Only(None))]
                 + [Call(FinishRequest, Null)], [])
  {
    hide Made;
    Resolving();
    var calls := RESOLVING;
    OneCallMade(calls, [ResolveRequest, FinishRequest], Only(Some(ServeFile)), [ServeFile, FinishRequest]);
    calls := calls + [Call(ResolveRequest, Only(Some(ServeFile)))];
    OneCallMade(calls, [ServeFile, FinishRequest], Only(None), [FinishRequest]);
    calls := calls + [Call(ServeFile, Only(None))];
    OneCallMade(calls, [FinishRequest], Null, []);
  }

  /** The body of a post is decoded before the plugin is called. */
  lemma PostReachesThePlugin(entry: nat)
    ensures Made(RESOLVING + [Call(ResolveRequest, Fresh(Some(DecodePostRequest), [Plugin(entry)], 0, []))]
                 + [Call(DecodePostRequest, Only(None))] + [Call(Plugin(entry), Null)] + [Call(FinishRequest, Null)], [])
  {
    hide Made;
    Resolving();
    var calls, ret := RESOLVING, Fresh(Some(DecodePostRequest), [Plugin(entry)], 0, []);
    OneCallMade(calls, [ResolveRequest, FinishRequest], ret, [DecodePostRequest, Plugin(entry), FinishRequest]);
    calls := calls + [Call(ResolveRequest, ret)];
    OneCallMade(calls, [DecodePostRequest, Plugin(entry), FinishRequest], Only(None), [Plugin(entry), FinishRequest]);
    calls := calls + [Call(DecodePostRequest, Only(None))];
    OneCallMade(calls, [Plugin(entry), FinishRequest], Null, [FinishRequest]);
    calls := calls + [Call(Plugin(entry), Null)];
    OneCallMade(calls, [FinishRequest], Null, []);
  }

  /** Every task that speaks for the request has exactly the rest of its calls to make. */
  ghost predicate Follows(s: State, r: nat, calls: seq<Call>)
  {
    && InTurn(calls)
    && (r !in s.requests.Keys ==> calls == [])
    && (Left(calls) == [] ==> r in s.requests.Keys && s.requests[r].finishes > 0)
    && forall p :: SpeaksAt(s, p, r) ==> HasLeft(At(s, p).value, Left(calls))
  }

  predicate HasLeft(task: Task, left: seq<Handle>)
  {
    left != [] && if task.handle.Some? then Stack(task) == left else task.callbacks == left[1..]
  }

  lemma OneCallMore(calls: seq<Call>, call: Call)
    ensures InTurn(calls) && Left(calls) != [] && Left(calls)[0] == call.handle ==> InTurn(calls + [call])
    ensures Left(calls) != [] ==> Left(calls + [call]) == Pushed(call.ret) + Left(calls)[1..]
  {
    var more := calls + [call];
    assert more[..|calls|] == calls;
    hide Left;
    forall i: nat | i < |calls| ensures more[..i] == calls[..i] {
    }
  }

  lemma HandedHasLeft(task: Task, task': Task, left: seq<Handle>)
    requires Handed(task, task') && HasLeft(task, left)
    ensures HasLeft(task', left)
  {
    assert task.handle.Some? ==> left[1..] == task.callbacks;
  }

  lemma OwnCallFollows(s: State, i: nat, choice: Choice, r: nat, calls: seq<Call>)
    requires Inv(s) && CanStep(s, i, choice) && Inv(ThreadStep(s, i, choice)) && Follows(s, r, calls)
    requires CallIn(s, Run(i, choice)).Some? && CallIn(s, Run(i, choice)).value.0.request == r
    ensures Follows(ThreadStep(s, i, choice), r, calls + NewCall(s, Run(i, choice), r))
  {
    hide Inv, CanStep, ThreadStep, InTurn, Left, Pushed, Stack, CanReturn;
    CallIsCalled(s, i, choice);
    CallOutcome(s, i, choice);
    var task, ret, s' := CallIn(s, Run(i, choice)).value.0, choice.ret, ThreadStep(s, i, choice);
    assert SpeaksAt(s, InHand(i), r) && At(s, InHand(i)) == Some(task);
    TopOfStack(task);
    OneCallMore(calls, Call(task.handle.value, ret));
    forall p | SpeaksAt(s', p, r) ensures p == InHand(i) && Pushed(ret) + Stack(task)[1..] != [] {
      StructureOf(s');
      PlaceCounts(s', p, r);
      StructureOf(s);
      PlaceCounts(s, InHand(i), r);
      if Pushed(ret) + Stack(task)[1..] != [] {
        PlacesAgree(s', p, InHand(i), r);
      }
    }
  }

  lemma StructureOf(s: State)
    requires Inv(s)
    ensures Structure(s)
  {
  }

  lemma TopOfStack(task: Task)
    requires task.handle.Some?
    ensures Stack(task) != [] && Stack(task)[0] == task.handle.value
  {
  }

  lemma OthersCallFollows(s: State, i: nat, choice: Choice, r: nat, calls: seq<Call>)
    requires Inv(s) && CanStep(s, i, choice) && Follows(s, r, calls)
    requires CallIn(s, Run(i, choice)).Some? && CallIn(s, Run(i, choice)).value.0.request != r
    ensures Follows(ThreadStep(s, i, choice), r, calls)
  {
    hide Inv, CanStep, ThreadStep, InTurn, Left, HasLeft, Pushed, Stack, CanReturn;
    CallIsCalled(s, i, choice);
    CallOutcome(s, i, choice);
    var s' := ThreadStep(s, i, choice);
    StepGrows(s, i, choice);
    forall p | SpeaksAt(s', p, r) ensures At(s, p) == At(s', p) {
    }
  }

  lemma NoCallFollows(s: State, l: Label, r: nat, calls: seq<Call>)
    requires Inv(s) && Enabled(s, l) && Follows(s, r, calls) && CallIn(s, l).None?
    ensures Follows(Apply(s, l), r, calls)
  {
    hide Inv, Enabled, Apply, InTurn, HasLeft, Handed, CallIn, At;
    RequestsGrow(s, l);
    NewcomersRequest(s, l);
    var s' := Apply(s, l);
    forall p' | SpeaksAt(s', p', r) ensures HasLeft(At(s', p').value, Left(calls)) {
      WhereTasksComeFrom(s, l, p');
      var task' := At(s', p').value;
      if Carried(s, task') {
        var p :| At(s, p).Some? && Handed(At(s, p).value, task');
        SameRequest(At(s, p).value, task');
        HandedHasLeft(At(s, p).value, task', Left(calls));
      } else {
        NewcomerHasLeft(task');
      }
    }
  }

  lemma SameRequest(task: Task, task': Task)
    requires Handed(task, task')
    ensures task'.request == task.request
  {
  }

  lemma NewcomerHasLeft(task: Task)
    ensures task.handle == Some(AcceptRequest) && task.callbacks == [FinishRequest] ==> HasLeft(task, Left([]))
  {
  }

  lemma NewcomersRequest(s: State, l: Label)
    requires Enabled(s, l)
    ensures Newcomer(s, l).Some? ==> Newcomer(s, l).value.request !in s.requests.Keys
  {
  }

  lemma StepFollows(s: State, l: Label, r: nat, calls: seq<Call>)
    requires Inv(s) && Enabled(s, l) && Follows(s, r, calls)
    ensures Follows(Apply(s, l), r, calls + NewCall(s, l, r))
  {
    hide Inv, Follows, CanStep, ThreadStep;
    if CallIn(s, l).None? {
      NoCallFollows(s, l, r, calls);
      assert calls + NewCall(s, l, r) == calls;
    } else {
      StepInv(s, l);
      if CallIn(s, l).value.0.request == r {
        OwnCallFollows(s, l.thread, l.choice, r, calls);
      } else {
        OthersCallFollows(s, l.thread, l.choice, r, calls);
        assert calls + NewCall(s, l, r) == calls;
      }
    }
  }

  /** The calls made for a request are those of a stack: it begins with accept_request and finish_request, each call is
      the one on top, and what its handler returns is pushed in its place. Wherever the request's task is, it has the
      rest of the stack to call; a task that hung up has lost the top. The stack is only empty once the request is
      finished. */
  lemma {:induction false} CallsFollowTheStack(states: seq<State>, labels: seq<Label>, n: nat, r: nat)
    requires IsRun(states, labels) && n <= |labels|
    ensures Follows(states[n], r, CallsFor(states, labels, n, r))
  {
    hide Follows, Inv, Apply, Enabled, Init, NewCall;
    if n == 0 {
      NothingCalledYet(states[0], r);
    } else {
      CallsFollowTheStack(states, labels, n - 1, r);
      RunInv(states, labels, n - 1);
      StepFollows(states[n - 1], labels[n - 1], r, CallsFor(states, labels, n - 1, r));
    }
  }

  lemma NothingCalledYet(s: State, r: nat)
    requires Init(s)
    ensures Follows(s, r, [])
  {
    forall p ensures At(s, p).None? {
    }
  }
}
