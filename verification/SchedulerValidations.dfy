/** The validation of antd_task_schedule over whole runs: what is too old is destroyed, and nothing else is called or
    kept back. */
module Validations {
  import opened Tasks
  import opened Readiness
  import opened Scheduler
  import opened SchedulerInvariant
  import opened Reachability
  import opened StructureProofs
  import opened SchedulerTheorems
  import opened Histories

  /** The event loop is about to validate this task. */
  predicate Validating(s: State, task: Task)
  {
    |s.threads| > 0 && s.threads[0].LoopValidate? && s.threads[0].task == task
  }

  // ---- One validation -----------------------------------------------------------------------

  lemma ExpiredStep(s: State, task: Task, choice: Choice)
    requires CanStep(s, 0, choice) && Validating(s, task) && task.request in s.requests.Keys
    requires s.clock - task.accessTime > s.limit
    ensures var s', request := ThreadStep(s, 0, choice), s.requests[task.request];
            && s'.requests == s.requests[task.request := request.(finishes := request.finishes + 1)]
            && s'.taskQueue == s.taskQueue && s'.workersQueue == s.workersQueue
            && s'.threads == s.threads[0 := LoopDeploy(s.threads[0].due)]
  {
  }

  lemma ValidStep(s: State, task: Task, choice: Choice)
    requires CanStep(s, 0, choice) && Validating(s, task)
    requires s.clock - task.accessTime <= s.limit
    ensures var s', due := ThreadStep(s, 0, choice), s.threads[0].due;
            && s'.requests == s.requests && s'.taskQueue == s.taskQueue && s'.workersQueue == s.workersQueue
            && s'.threads
               == s.threads[0 := if s.nWorkers == 0 then LoopBusy(Calling(task), due) else LoopEnqueue(task, due)]
  {
  }

  lemma ValidatedIsOwned(s: State, task: Task)
    requires Inv(s) && Validating(s, task)
    ensures Live(s, task.request)
  {
    assert HeldOk(s, s.threads[0]);
  }

  lemma NobodySpeaks(s: State, r: nat)
    requires Inv(s) && !Live(s, r)
    ensures forall p :: !SpeaksAt(s, p, r)
  {
    forall p | SpeaksAt(s, p, r) ensures false {
      PlaceCounts(s, p, r);
    }
  }

  /** A task last used longer ago than the limit is destroyed by its validation, whatever its handle: its request is
      finished, for the first time, and no task speaks for it any more. No other request and no other task is touched. */
  lemma ExpiredIsFinished(s: State, task: Task, choice: Choice)
    requires Reachable(s) && Validating(s, task) && CanStep(s, 0, choice)
    requires s.clock - task.accessTime > s.limit
    ensures var s', r := Apply(s, Run(0, choice)), task.request;
            && r in s.requests.Keys && s.requests[r].finishes == 0
            && s'.requests == s.requests[r := s.requests[r].(finishes := 1)]
            && (forall p :: !SpeaksAt(s', p, r))
            && s'.taskQueue == s.taskQueue && s'.workersQueue == s.workersQueue
  {
    hide Inv, CanStep, ThreadStep, SpeaksAt;
    ReachableInv(s);
    StepInv(s, Run(0, choice));
    ValidatedIsOwned(s, task);
    ExpiredStep(s, task, choice);
    NobodySpeaks(Apply(s, Run(0, choice)), task.request);
  }

  /** Any other task passes, and goes on as it is: the event loop calls it, or is about to hand it to the workers.
      Its request stays open. */
  lemma ValidGoesOn(s: State, task: Task, choice: Choice)
    requires Reachable(s) && Validating(s, task) && CanStep(s, 0, choice)
    requires s.clock - task.accessTime <= s.limit
    ensures var s', r, due := Apply(s, Run(0, choice)), task.request, s.threads[0].due;
            && s'.requests == s.requests && r in s.requests.Keys && s.requests[r].finishes == 0
            && s'.taskQueue == s.taskQueue && s'.workersQueue == s.workersQueue
            && |s'.threads| > 0
            && s'.threads[0] == if s.nWorkers == 0 then LoopBusy(Calling(task), due) else LoopEnqueue(task, due)
  {
    hide Inv, CanStep, ThreadStep;
    ReachableInv(s);
    ValidatedIsOwned(s, task);
    ValidStep(s, task, choice);
  }

  // ---- Expired tasks over a run -------------------------------------------------------------

  lemma {:induction false} FinishedStays(states: seq<State>, labels: seq<Label>, m: nat, n: nat, r: nat)
    requires IsRun(states, labels) && m <= n <= |labels|
    requires r in states[m].requests.Keys && states[m].requests[r].finishes > 0
    ensures r in states[n].requests.Keys && states[n].requests[r].finishes > 0
  {
    hide Apply, Enabled, Init;
    if m < n {
      FinishedStays(states, labels, m, n - 1, r);
      RequestsGrow(states[n - 1], labels[n - 1]);
    }
  }

  /** Once a task was expired at its validation, no task of its request is anywhere again: none waits, none is ready,
      none is called. */
  lemma ExpiredIsGone(states: seq<State>, labels: seq<Label>, m: nat, n: nat, task: Task)
    requires IsRun(states, labels) && m < n <= |labels|
    requires Validating(states[m], task) && labels[m].Run? && labels[m].thread == 0
    requires states[m].clock - task.accessTime > states[m].limit
    ensures forall p :: !SpeaksAt(states[n], p, task.request)
    ensures n < |labels| ==> NewCall(states[n], labels[n], task.request) == []
  {
    hide Inv, CanStep, ThreadStep, Init;
    RunInv(states, labels, m);
    RunInv(states, labels, n);
    ValidatedIsOwned(states[m], task);
    ExpiredStep(states[m], task, labels[m].choice);
    FinishedStays(states, labels, m + 1, n, task.request);
    NobodySpeaks(states[n], task.request);
    if n < |labels| && CallIn(states[n], labels[n]).Some? {
      assert !SpeaksAt(states[n], InHand(labels[n].thread), task.request);
    }
  }

  // ---- Every call was validated -------------------------------------------------------------

  predicate InHands(th: Thread, task: Task)
  {
    (th.LoopEnqueue? && th.task == task) || ActivityOf(th) == Some(Calling(task))
  }

  /** The task is on its way from the validation to its call, or being called. */
  predicate OnItsWay(s: State, task: Task)
  {
    task in s.workersQueue || exists i :: 0 <= i < |s.threads| && InHands(s.threads[i], task)
  }

  /** This step validates the task, and it is not too old. */
  predicate Passes(s: State, l: Label, task: Task)
  {
    && l.Run? && l.thread < |s.threads| && s.threads[l.thread].LoopValidate? && s.threads[l.thread].task == task
    && s.clock - task.accessTime <= s.limit
  }

  /** What a step may bring on its way: a task that passes, or one that was on its way already. */
  ghost predicate Sends(s: State, l: Label, s': State, i: nat)
  {
    && i < |s.threads| == |s'.threads| && s'.threads == s.threads[i := s'.threads[i]]
    && (forall task :: InHands(s'.threads[i], task) ==> Passes(s, l, task) || OnItsWay(s, task))
    && (forall task :: task in s'.workersQueue ==> task in s.workersQueue || InHands(s.threads[i], task))
  }

  lemma ActivitySends(s: State, i: nat, choice: Choice)
    requires CanStep(s, i, choice) && ActivityOf(s.threads[i]).Some?
    ensures Sends(s, Run(i, choice), ThreadStep(s, i, choice), i)
  {
    hide CanReturn, AfterCall, OnItsWay;
    assert ThreadStep(s, i, choice) == ActivityStep(s, i, ActivityOf(s.threads[i]).value, choice);
  }

  lemma WorkerSends(s: State, i: nat, choice: Choice)
    requires CanStep(s, i, choice) && IsWorker(s.threads[i]) && !s.threads[i].WorkerBusy?
    ensures Sends(s, Run(i, choice), ThreadStep(s, i, choice), i)
  {
    if s.threads[i].WorkerDequeue? && s.workersQueue != [] {
      assert s.workersQueue[0] in s.workersQueue;
    }
  }

  lemma LoopSends(s: State, i: nat, choice: Choice)
    requires CanStep(s, i, choice) && ActivityOf(s.threads[i]).None? && !IsWorker(s.threads[i])
    ensures Sends(s, Run(i, choice), ThreadStep(s, i, choice), i)
  {
    hide Judge, Slots, DueNow, CanReturn, ActivityStep, OnItsWay;
  }

  lemma RunSends(s: State, i: nat, choice: Choice, task: Task)
    requires CanStep(s, i, choice) && OnItsWay(ThreadStep(s, i, choice), task)
    ensures Passes(s, Run(i, choice), task) || OnItsWay(s, task)
  {
    hide CanStep, ThreadStep, InHands, Passes;
    StepSends(s, i, choice);
    var s' := ThreadStep(s, i, choice);
    if task !in s'.workersQueue {
      var j :| 0 <= j < |s'.threads| && InHands(s'.threads[j], task);
      assert j != i ==> s'.threads[j] == s.threads[j];
    }
  }

  lemma StepSends(s: State, i: nat, choice: Choice)
    requires CanStep(s, i, choice)
    ensures Sends(s, Run(i, choice), ThreadStep(s, i, choice), i)
  {
    hide ThreadStep, Sends, CanReturn;
    if ActivityOf(s.threads[i]).Some? {
      ActivitySends(s, i, choice);
    } else if IsWorker(s.threads[i]) {
      WorkerSends(s, i, choice);
    } else {
      LoopSends(s, i, choice);
    }
  }

  lemma RestSend(s: State, l: Label, task: Task)
    requires Enabled(s, l) && !l.Run? && OnItsWay(Apply(s, l), task)
    ensures OnItsWay(s, task)
  {
    var s' := Apply(s, l);
    if task !in s'.workersQueue {
      var i :| 0 <= i < |s'.threads| && InHands(s'.threads[i], task);
      assert i < |s.threads| && s.threads[i] == s'.threads[i];
    }
  }

  lemma OnlyPassingSends(s: State, l: Label, task: Task)
    requires Enabled(s, l) && OnItsWay(Apply(s, l), task)
    ensures Passes(s, l, task) || OnItsWay(s, task)
  {
    hide CanStep, ThreadStep, OnItsWay, Passes;
    if l.Run? {
      RunSends(s, l.thread, l.choice, task);
    } else {
      RestSend(s, l, task);
    }
  }

  /** Every task that is ready or called passed its validation, and has been on its way, unchanged, ever since. */
  lemma {:induction false} CallsWereValidated(states: seq<State>, labels: seq<Label>, n: nat, task: Task)
    requires IsRun(states, labels) && n <= |labels| && OnItsWay(states[n], task)
    ensures exists m :: 0 <= m < n && Passes(states[m], labels[m], task)
              && forall k :: m < k <= n ==> OnItsWay(states[k], task)
  {
    hide Apply, Enabled, OnItsWay, Passes, Init;
    if n == 0 {
      NothingOnItsWay(states[0], task);
    } else {
      OnlyPassingSends(states[n - 1], labels[n - 1], task);
      if OnItsWay(states[n - 1], task) {
        CallsWereValidated(states, labels, n - 1, task);
        var m :| 0 <= m < n - 1 && Passes(states[m], labels[m], task)
                 && forall k :: m < k <= n - 1 ==> OnItsWay(states[k], task);
        assert forall k :: m < k <= n ==> OnItsWay(states[k], task);
      }
    }
  }

  lemma NothingOnItsWay(s: State, task: Task)
    requires Init(s)
    ensures !OnItsWay(s, task)
  {
  }

  // ---- How requests end ---------------------------------------------------------------------

  /** This step ends request r: it calls finish_request for it, or finds its task expired. */
  predicate Ends(s: State, l: Label, r: nat)
  {
    || (CallIn(s, l).Some? && CallIn(s, l).value.0.request == r && CallIn(s, l).value.0.handle == Some(FinishRequest))
    || (l.Run? && l.thread == 0 && |s.threads| > 0 && s.threads[0].LoopValidate? && s.threads[0].task.request == r
        && s.clock - s.threads[0].task.accessTime > s.limit)
  }

  function TimesEnded(states: seq<State>, labels: seq<Label>, n: nat, r: nat): nat
    requires n <= |labels| && |states| == |labels| + 1
  {
    if n == 0 then 0 else TimesEnded(states, labels, n - 1, r) + if Ends(states[n - 1], labels[n - 1], r) then 1 else 0
  }

  /** What a step makes of a request's finishes. */
  ghost predicate EndsExactly(s: State, l: Label, s': State, r: nat)
  {
    if r in s.requests.Keys
    then r in s'.requests.Keys && s'.requests[r].finishes == s.requests[r].finishes + if Ends(s, l, r) then 1 else 0
    else !Ends(s, l, r) && (r in s'.requests.Keys ==> s'.requests[r].finishes == 0)
  }

  lemma CallEnds(s: State, i: nat, choice: Choice, r: nat)
    requires Inv(s) && CanStep(s, i, choice) && CallIn(s, Run(i, choice)).Some?
    ensures EndsExactly(s, Run(i, choice), ThreadStep(s, i, choice), r)
  {
    hide Inv, CanStep, ThreadStep, Pushed, Stack, CanReturn;
    CallIsCalled(s, i, choice);
    CallOutcome(s, i, choice);
  }

  lemma ValidationEnds(s: State, choice: Choice, r: nat)
    requires Inv(s) && CanStep(s, 0, choice) && s.threads[0].LoopValidate?
    ensures EndsExactly(s, Run(0, choice), ThreadStep(s, 0, choice), r)
  {
    hide Inv, CanStep, ThreadStep;
    ValidatedHere(s, choice);
    var task := s.threads[0].task;
    ValidatedIsOwned(s, task);
    if s.clock - task.accessTime > s.limit {
      ExpiredStep(s, task, choice);
    } else {
      ValidStep(s, task, choice);
    }
  }

  lemma ValidatedHere(s: State, choice: Choice)
    requires CanStep(s, 0, choice)
    ensures |s.threads| > 0
  {
  }

  lemma ActivityEndsNothing(s: State, i: nat, choice: Choice, r: nat)
    requires CanStep(s, i, choice) && ActivityOf(s.threads[i]).Some? && CallIn(s, Run(i, choice)).None?
    ensures EndsExactly(s, Run(i, choice), ThreadStep(s, i, choice), r)
  {
    hide CanReturn, AfterCall;
    assert ThreadStep(s, i, choice) == ActivityStep(s, i, ActivityOf(s.threads[i]).value, choice);
  }

  lemma OthersEndNothing(s: State, i: nat, choice: Choice, r: nat)
    requires CanStep(s, i, choice) && ActivityOf(s.threads[i]).None? && !(i == 0 && s.threads[0].LoopValidate?)
    requires !s.threads[i].LoopValidate?
    ensures EndsExactly(s, Run(i, choice), ThreadStep(s, i, choice), r)
  {
    hide Judge, Slots, DueNow, CanReturn, ActivityStep;
  }

  lemma OnlyTheLoopValidates(s: State, i: nat)
    requires Inv(s) && i < |s.threads| && s.threads[i].LoopValidate?
    ensures i == 0
  {
  }

  lemma RunEnds(s: State, i: nat, choice: Choice, r: nat)
    requires Inv(s) && CanStep(s, i, choice)
    ensures EndsExactly(s, Run(i, choice), ThreadStep(s, i, choice), r)
  {
    hide Inv, ThreadStep, EndsExactly, CanReturn;
    if CallIn(s, Run(i, choice)).Some? {
      CallEnds(s, i, choice, r);
    } else if ActivityOf(s.threads[i]).Some? {
      ActivityEndsNothing(s, i, choice, r);
    } else if s.threads[i].LoopValidate? {
      OnlyTheLoopValidates(s, i);
      ValidationEnds(s, choice, r);
    } else {
      OthersEndNothing(s, i, choice, r);
    }
  }

  lemma RestEndsNothing(s: State, l: Label, r: nat)
    requires Enabled(s, l) && !l.Run?
    ensures EndsExactly(s, l, Apply(s, l), r)
  {
  }

  lemma StepEnds(s: State, l: Label, r: nat)
    requires Inv(s) && Enabled(s, l)
    ensures EndsExactly(s, l, Apply(s, l), r)
  {
    hide Inv, CanStep, ThreadStep, EndsExactly;
    if l.Run? {
      RunEnds(s, l.thread, l.choice, r);
    } else {
      RestEndsNothing(s, l, r);
    }
  }

  /** A request is finished by a call of finish_request or by a validation that finds its task expired, and by nothing
      else: its finishes are those of the run, and there is at most one. */
  lemma {:induction false} FinishesAreAccountedFor(states: seq<State>, labels: seq<Label>, n: nat, r: nat)
    requires IsRun(states, labels) && n <= |labels|
    ensures TimesEnded(states, labels, n, r) == if r in states[n].requests.Keys then states[n].requests[r].finishes else 0
    ensures TimesEnded(states, labels, n, r) <= 1
  {
    hide Apply, Enabled, Inv, Ends, Init;
    EndsAdded(states, labels, n, r);
    RunInv(states, labels, n);
    if r in states[n].requests.Keys {
      FinishedOnce(states[n], r);
    }
  }

  lemma FinishedOnce(s: State, r: nat)
    requires Inv(s) && r in s.requests.Keys
    ensures s.requests[r].finishes <= 1
  {
    assert Speakers(s, r) + s.requests[r].finishes == 1;
  }

  lemma {:induction false} EndsAdded(states: seq<State>, labels: seq<Label>, n: nat, r: nat)
    requires IsRun(states, labels) && n <= |labels|
    ensures TimesEnded(states, labels, n, r) == if r in states[n].requests.Keys then states[n].requests[r].finishes else 0
  {
    hide Apply, Enabled, Inv, Ends, Init;
    if n == 0 {
      NoRequestYet(states[0]);
    } else {
      EndsAdded(states, labels, n - 1, r);
      RunInv(states, labels, n - 1);
      StepEnds(states[n - 1], labels[n - 1], r);
    }
  }

  lemma NoRequestYet(s: State)
    requires Init(s)
    ensures s.requests == map[]
  {
  }
}
