/** What is put in comes out: the order in which ready tasks are called, and where the posts to the semaphores go. */
module Ledger {
  import opened Tasks
  import opened Readiness
  import opened Scheduler
  import opened SchedulerInvariant
  import opened Reachability
  import opened SchedulerTheorems
  import opened Histories

  // ---- First in, first called ---------------------------------------------------------------

  /** The task this step makes ready. */
  function Delegated(s: State, l: Label): seq<Task>
  {
    if l.Run? && l.thread < |s.threads| && s.threads[l.thread].LoopEnqueue? then [s.threads[l.thread].task] else []
  }

  /** The task a worker turns to in this step. */
  function TakenUp(s: State, l: Label, s': State): seq<Task>
  {
    if l.Run? && l.thread < |s.threads| && s.threads[l.thread].WorkerDequeue?
       && l.thread < |s'.threads| && CallIn(s', l).Some?
    then [CallIn(s', l).value.0] else []
  }

  function AllDelegated(states: seq<State>, labels: seq<Label>, n: nat): seq<Task>
    requires n <= |labels| && |states| == |labels| + 1
  {
    if n == 0 then [] else AllDelegated(states, labels, n - 1) + Delegated(states[n - 1], labels[n - 1])
  }

  function AllTakenUp(states: seq<State>, labels: seq<Label>, n: nat): seq<Task>
    requires n <= |labels| && |states| == |labels| + 1
  {
    if n == 0 then [] else AllTakenUp(states, labels, n - 1) + TakenUp(states[n - 1], labels[n - 1], states[n])
  }

  lemma ActivityLeavesQueue(s: State, i: nat, choice: Choice)
    requires CanStep(s, i, choice) && ActivityOf(s.threads[i]).Some?
    ensures var l, s' := Run(i, choice), ThreadStep(s, i, choice);
            s'.workersQueue == s.workersQueue && Delegated(s, l) == [] && TakenUp(s, l, s') == []
  {
    hide CanReturn, AfterCall;
    assert ThreadStep(s, i, choice) == ActivityStep(s, i, ActivityOf(s.threads[i]).value, choice);
  }

  lemma WorkerTakesFirst(s: State, i: nat, choice: Choice)
    requires CanStep(s, i, choice) && s.threads[i].WorkerDequeue?
    ensures var l, s' := Run(i, choice), ThreadStep(s, i, choice);
            && s.workersQueue == TakenUp(s, l, s') + s'.workersQueue && Delegated(s, l) == []
            && (s.workersQueue == [] ==> s'.threads[i].WorkerSleep?)
  {
    if s.workersQueue != [] {
      assert s.workersQueue == [s.workersQueue[0]] + s.workersQueue[1..];
    }
  }

  lemma LoopPutsLast(s: State, i: nat, choice: Choice)
    requires CanStep(s, i, choice) && ActivityOf(s.threads[i]).None? && !s.threads[i].WorkerDequeue?
    ensures var l, s' := Run(i, choice), ThreadStep(s, i, choice);
            s'.workersQueue == s.workersQueue + Delegated(s, l) && TakenUp(s, l, s') == []
  {
    hide Judge, Slots, DueNow, Expired, CanReturn;
  }

  lemma StepQueues(s: State, l: Label)
    requires Enabled(s, l)
    ensures var s' := Apply(s, l);
            s.workersQueue + Delegated(s, l) == TakenUp(s, l, s') + s'.workersQueue
  {
    hide CanStep, ThreadStep, Delegated, TakenUp;
    if l.Run? {
      RunQueues(s, l.thread, l.choice);
    } else {
      OthersQueue(s, l);
    }
  }

  lemma RunQueues(s: State, i: nat, choice: Choice)
    requires CanStep(s, i, choice)
    ensures var l, s' := Run(i, choice), ThreadStep(s, i, choice);
            s.workersQueue + Delegated(s, l) == TakenUp(s, l, s') + s'.workersQueue
  {
    hide ThreadStep, Delegated, TakenUp, CanReturn;
    if ActivityOf(s.threads[i]).Some? {
      ActivityLeavesQueue(s, i, choice);
    } else if s.threads[i].WorkerDequeue? {
      WorkerTakesFirst(s, i, choice);
    } else {
      LoopPutsLast(s, i, choice);
    }
  }

  lemma OthersQueue(s: State, l: Label)
    requires Enabled(s, l) && !l.Run?
    ensures Apply(s, l).workersQueue == s.workersQueue && Delegated(s, l) == [] && TakenUp(s, l, Apply(s, l)) == []
  {
  }

  /** First in, first called: the tasks the workers have taken up are, in this order, the first of those the event
      loop has made ready, and the queue holds the others. */
  lemma {:induction false} FirstInFirstCalled(states: seq<State>, labels: seq<Label>, n: nat)
    requires IsRun(states, labels) && n <= |labels|
    ensures AllDelegated(states, labels, n) == AllTakenUp(states, labels, n) + states[n].workersQueue
  {
    hide Apply, Enabled, Delegated, TakenUp;
    if n > 0 {
      FirstInFirstCalled(states, labels, n - 1);
      StepQueues(states[n - 1], labels[n - 1]);
      var was, out := AllTakenUp(states, labels, n - 1), TakenUp(states[n - 1], labels[n - 1], states[n]);
      assert was + states[n - 1].workersQueue + Delegated(states[n - 1], labels[n - 1])
          == was + (states[n - 1].workersQueue + Delegated(states[n - 1], labels[n - 1]));
      assert was + (out + states[n].workersQueue) == (was + out) + states[n].workersQueue;
    }
  }

  // ---- Posts and waits ----------------------------------------------------------------------

  /** The four steps that touch a semaphore. */
  datatype Touch = PostWorkers | WaitAsWorker | PostLoop | WaitAsLoop

  predicate Touches(th: Thread, touch: Touch)
  {
    match touch
    case PostWorkers => th.LoopWake?
    case WaitAsWorker => th.WorkerSleep?
    case PostLoop => ActivityOf(th) == Some(Posting)
    case WaitAsLoop => th.LoopSleep?
  }

  function Touched(s: State, l: Label, touch: Touch): nat
  {
    if l.Run? && l.thread < |s.threads| && Touches(s.threads[l.thread], touch) then 1 else 0
  }

  /** How often that happened in the first n steps. */
  function Times(states: seq<State>, labels: seq<Label>, n: nat, touch: Touch): nat
    requires n <= |labels| && |states| == |labels| + 1
  {
    if n == 0 then 0 else Times(states, labels, n - 1, touch) + Touched(states[n - 1], labels[n - 1], touch)
  }

  /** The posts stop() has made so far. */
  function PostsToWorkers(s: State): nat
  {
    match s.stopper
    case Running => 0
    case WakingWorkers(n) => n
    case _ => s.nWorkers
  }

  function PostsToLoop(s: State): nat { if s.stopper.Joining? || s.stopper.Stopped? then 1 else 0 }

  /** One step's posts and waits balance. */
  ghost predicate Balanced(s: State, l: Label, s': State)
  {
    && s'.workerSem + Touched(s, l, WaitAsWorker) + PostsToWorkers(s)
       == s.workerSem + Touched(s, l, PostWorkers) + PostsToWorkers(s')
    && s'.schedulerSem + Touched(s, l, WaitAsLoop) + PostsToLoop(s)
       == s.schedulerSem + Touched(s, l, PostLoop) + PostsToLoop(s')
    && Counted(s') && s'.nWorkers == s.nWorkers
  }

  predicate Counted(s: State) { s.stopper.WakingWorkers? ==> s.stopper.posted <= s.nWorkers }

  lemma ActivityBalances(s: State, i: nat, choice: Choice)
    requires Counted(s) && CanStep(s, i, choice) && ActivityOf(s.threads[i]).Some?
    ensures Balanced(s, Run(i, choice), ThreadStep(s, i, choice))
  {
    hide CanReturn, AfterCall;
    assert ThreadStep(s, i, choice) == ActivityStep(s, i, ActivityOf(s.threads[i]).value, choice);
  }

  lemma WorkerBalances(s: State, i: nat, choice: Choice)
    requires Counted(s) && CanStep(s, i, choice) && IsWorker(s.threads[i]) && !s.threads[i].WorkerBusy?
    ensures Balanced(s, Run(i, choice), ThreadStep(s, i, choice))
  {
  }

  lemma RoundBalances(s: State, i: nat, choice: Choice)
    requires Counted(s) && CanStep(s, i, choice)
    requires s.threads[i].LoopPoll? || s.threads[i].LoopDeploy? || s.threads[i].LoopValidate?
    ensures Balanced(s, Run(i, choice), ThreadStep(s, i, choice))
  {
    hide Judge, Expired, CanReturn, ActivityStep;
  }

  lemma LoopBalances(s: State, i: nat, choice: Choice)
    requires Counted(s) && CanStep(s, i, choice) && ActivityOf(s.threads[i]).None? && !IsWorker(s.threads[i])
    requires !s.threads[i].LoopPoll? && !s.threads[i].LoopDeploy? && !s.threads[i].LoopValidate?
    ensures Balanced(s, Run(i, choice), ThreadStep(s, i, choice))
  {
    hide Slots, DueNow, CanReturn, ActivityStep;
  }

  lemma StepBalances(s: State, l: Label)
    requires Counted(s) && Enabled(s, l)
    ensures Balanced(s, l, Apply(s, l))
  {
    hide CanStep, ThreadStep, Balanced;
    if l.Run? {
      RunBalances(s, l.thread, l.choice);
    } else {
      RestBalances(s, l);
    }
  }

  lemma RunBalances(s: State, i: nat, choice: Choice)
    requires Counted(s) && CanStep(s, i, choice)
    ensures Balanced(s, Run(i, choice), ThreadStep(s, i, choice))
  {
    hide ThreadStep, CanReturn, Balanced;
    if ActivityOf(s.threads[i]).Some? {
      ActivityBalances(s, i, choice);
    } else if IsWorker(s.threads[i]) {
      WorkerBalances(s, i, choice);
    } else if s.threads[i].LoopPoll? || s.threads[i].LoopDeploy? || s.threads[i].LoopValidate? {
      RoundBalances(s, i, choice);
    } else {
      LoopBalances(s, i, choice);
    }
  }

  lemma RestBalances(s: State, l: Label)
    requires Counted(s) && Enabled(s, l) && !l.Run?
    ensures Balanced(s, l, Apply(s, l))
  {
  }

  /** Every post is there or was waited for: one for each task made ready and one for each worker from stop(), one for
      each task inserted and one for the event loop from stop(), and none besides. */
  lemma {:induction false} PostsAreConserved(states: seq<State>, labels: seq<Label>, n: nat)
    requires IsRun(states, labels) && n <= |labels|
    ensures Counted(states[n])
    ensures states[n].workerSem + Times(states, labels, n, WaitAsWorker)
         == Times(states, labels, n, PostWorkers) + PostsToWorkers(states[n])
    ensures states[n].schedulerSem + Times(states, labels, n, WaitAsLoop)
         == Times(states, labels, n, PostLoop) + PostsToLoop(states[n])
  {
    hide Apply, Enabled, Touched, PostsToWorkers, PostsToLoop, Counted, Init;
    if n > 0 {
      PostsAreConserved(states, labels, n - 1);
      StepBalances(states[n - 1], labels[n - 1]);
    } else {
      NothingPostedYet(states[0]);
    }
  }

  lemma NothingPostedYet(s: State)
    requires Init(s)
    ensures Counted(s) && s.workerSem == s.schedulerSem == PostsToWorkers(s) == PostsToLoop(s) == 0
  {
  }
}
