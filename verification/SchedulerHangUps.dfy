/** Calls through a null handle: when a hang-up leads to one, and when it cannot. */
module HangUps {
  import opened Tasks
  import opened Readiness
  import opened Scheduler
  import opened SchedulerInvariant
  import opened Reachability
  import opened SchedulerTheorems
  import T = SearchTree

  /** A task nulled on a hang-up is in the schedule of the running round, and from there the clock alone decides:
      the validation stops it if and only if one validity interval has passed since the epoch. */
  lemma HungUpTasksAreScheduled(s: State)
    requires Reachable(s)
    ensures |s.threads| > 0
    ensures forall k :: k in s.taskQueue.Keys && s.taskQueue[k].handle.None? ==> k in Schedule(s.threads[0]).Keys
    ensures s.threads[0].LoopValidate? && s.threads[0].task.handle.None? ==>
              (Expired(s.threads[0].task, s.clock, s.limit) <==> s.clock > s.limit)
  {
    ReachableInv(s);
    assert HeldOk(s, s.threads[0]);
  }

  // ---- A late enough clock ------------------------------------------------------------

  /** Past the validation every task has a handle. */
  ghost predicate NullsStopped(s: State)
  {
    && s.clock > s.limit
    && (forall j :: 0 <= j < |s.workersQueue| ==> s.workersQueue[j].handle.Some?)
    && (forall i :: 0 <= i < |s.threads| ==>
          !CallsNull(s.threads[i]) && (s.threads[i].LoopEnqueue? ==> s.threads[i].task.handle.Some?))
  }

  lemma ActivityStopsNulls(s: State, i: nat, choice: Choice)
    requires NullsStopped(s) && CanStep(s, i, choice) && ActivityOf(s.threads[i]).Some?
    ensures NullsStopped(ThreadStep(s, i, choice))
  {
    hide CanReturn, AfterCall;
    var act := ActivityOf(s.threads[i]).value;
    var s' := ThreadStep(s, i, choice);
    assert s' == ActivityStep(s, i, act, choice);
    assert s'.threads == s.threads[i := s'.threads[i]] && !CallsNull(s'.threads[i]);
  }

  lemma WorkerStopsNulls(s: State, i: nat, choice: Choice)
    requires NullsStopped(s) && CanStep(s, i, choice) && IsWorker(s.threads[i]) && !s.threads[i].WorkerBusy?
    ensures NullsStopped(ThreadStep(s, i, choice))
  {
    var s' := ThreadStep(s, i, choice);
    assert s'.threads == s.threads[i := s'.threads[i]] && !CallsNull(s'.threads[i]);
  }

  /** The validation stops what has no handle. */
  lemma ValidationStopsNulls(s: State, choice: Choice)
    requires Inv(s) && NullsStopped(s) && CanStep(s, 0, choice)
    requires s.threads[0].LoopValidate? || s.threads[0].LoopEnqueue?
    ensures NullsStopped(ThreadStep(s, 0, choice))
  {
    assert HeldOk(s, s.threads[0]);
    var s' := ThreadStep(s, 0, choice);
    assert s'.threads == s.threads[0 := s'.threads[0]] && !CallsNull(s'.threads[0]);
  }

  lemma LoopStopsNulls(s: State, choice: Choice)
    requires NullsStopped(s) && CanStep(s, 0, choice) && IsLoop(s.threads[0]) && ActivityOf(s.threads[0]).None?
    requires !s.threads[0].LoopValidate? && !s.threads[0].LoopEnqueue?
    ensures NullsStopped(ThreadStep(s, 0, choice))
  {
    hide Judge, Slots, DueNow;
    var s' := ThreadStep(s, 0, choice);
    assert s'.threads == s.threads[0 := s'.threads[0]] && !CallsNull(s'.threads[0]);
  }

  lemma StepStopsNulls(s: State, i: nat, choice: Choice)
    requires Inv(s) && NullsStopped(s) && CanStep(s, i, choice)
    ensures NullsStopped(ThreadStep(s, i, choice))
  {
    hide NullsStopped;
    if ActivityOf(s.threads[i]).Some? {
      ActivityStopsNulls(s, i, choice);
    } else if i > 0 {
      WorkerStopsNulls(s, i, choice);
    } else if s.threads[0].LoopValidate? || s.threads[0].LoopEnqueue? {
      ValidationStopsNulls(s, choice);
    } else {
      LoopStopsNulls(s, choice);
    }
  }

  lemma LabelStopsNulls(s: State, l: Label)
    requires Inv(s) && NullsStopped(s) && Enabled(s, l)
    ensures NullsStopped(Apply(s, l))
  {
    hide Inv, CanStep, ThreadStep;
    if l.Run? {
      StepStopsNulls(s, l.thread, l.choice);
    }
  }

  lemma NothingToStopYet(s: State)
    requires Init(s) && s.clock > s.limit
    ensures NullsStopped(s)
  {}

  lemma {:induction false} RunStopsNulls(states: seq<State>, labels: seq<Label>, n: nat)
    requires IsRun(states, labels) && n < |states| && states[0].clock > states[0].limit
    ensures NullsStopped(states[n])
  {
    hide NullsStopped, Inv, Apply, Enabled, Init;
    if n == 0 {
      NothingToStopYet(states[0]);
    } else {
      RunStopsNulls(states, labels, n - 1);
      RunInv(states, labels, n - 1);
      LabelStopsNulls(states[n - 1], labels[n - 1]);
    }
  }

  /** Started late enough, every call goes through a real handle, for a request that is still open, and the
      thread accepts whatever that handler can return. */
  lemma CallsAreSafe(s0: State, s: State, i: nat, task: Task)
    requires ReachableFrom(s0, s) && s0.clock > s0.limit
    requires i < |s.threads| && ActivityOf(s.threads[i]) == Some(Calling(task))
    ensures task.handle.Some? && Live(s, task.request)
    ensures forall choice: Choice :: CanReturn(task.handle.value, choice.ret) ==> CanStep(s, i, choice)
  {
    var states, labels :| IsRun(states, labels) && states[0] == s0 && states[|labels|] == s;
    RunStopsNulls(states, labels, |labels|);
    RunInv(states, labels, |labels|);
    assert HeldOk(s, s.threads[i]);
  }

  /** Started late enough, a task that hung up is destroyed in the round that noticed: it fails the validation
      and is never ready for a worker. */
  lemma HungUpTasksDie(s0: State, s: State)
    requires ReachableFrom(s0, s) && s0.clock > s0.limit
    ensures |s.threads| > 0
    ensures s.threads[0].LoopValidate? && s.threads[0].task.handle.None? ==>
              Expired(s.threads[0].task, s.clock, s.limit)
    ensures forall j :: 0 <= j < |s.workersQueue| ==> s.workersQueue[j].handle.Some?
    ensures !Lost(s)
  {
    var states, labels :| IsRun(states, labels) && states[0] == s0 && states[|labels|] == s;
    RunStopsNulls(states, labels, |labels|);
    HungUpTasksAreScheduled(s);
  }

  // ---- Too early a clock --------------------------------------------------------------

  lemma Further(s0: State, s: State, l: Label)
    requires ReachableFrom(s0, s) && Enabled(s, l)
    ensures ReachableFrom(s0, Apply(s, l))
  {
    hide Enabled, Apply;
    var states, labels :| IsRun(states, labels) && states[0] == s0 && states[|labels|] == s;
    var states', labels' := states + [Apply(s, l)], labels + [l];
    assert IsRun(states', labels') && states'[0] == s0 && states'[|labels'|] == Apply(s, l);
  }

  const EVENT := Event(1, Flags(false, true, true, false), Time(0, 0), 0)

  /** The task of the first connection, accepted when the clock reads `now`. */
  function First(now: int): Task
  {
    Task(1, 0, Some(AcceptRequest), [FinishRequest], now, [EVENT])
  }

  /** One step of the event loop, or of a worker, on the way to the null call. */
  ghost predicate OnTheWay(s0: State, s: State, th: Thread, tree: map<int, Task>, ready: seq<Task>)
  {
    && ReachableFrom(s0, s) && |s.threads| == s0.nWorkers + 2 && s.threads[0] == th
    && (forall i :: 1 <= i <= s0.nWorkers ==> s.threads[i] == WorkerCheck)
    && s.taskQueue == tree && s.workersQueue == ready
    && s.status && s.clock == s0.clock && s.limit == s0.limit && s.nWorkers == s0.nWorkers
  }

  /** What the outside contributes: validity is read as fresh while polling, and poll reports a hang-up. */
  function HangingUp(s0: State): Choice
  {
    var seconds := if s0.limit < 0 then s0.clock + s0.limit else s0.clock;
    Choice(Null, [(1, First(s0.clock))], (id, k) => Reading(seconds, Time(0, 0)), true,
           Revents(false, false, false, true))
  }

  lemma LoopGoesOn(s0: State, s: State, th: Thread, tree: map<int, Task>, ready: seq<Task>, choice: Choice)
    requires OnTheWay(s0, s, th, tree, ready) && IsLoop(th) && CanStep(s, 0, choice)
    ensures var s' := ThreadStep(s, 0, choice);
            ReachableFrom(s0, s') && Apply(s, Run(0, choice)) == s'
    ensures var s' := ThreadStep(s, 0, choice);
            ActivityOf(th).None? ==> OnTheWay(s0, s', s'.threads[0], s'.taskQueue, s'.workersQueue)
  {
    Further(s0, s, Run(0, choice));
    var s' := ThreadStep(s, 0, choice);
    assert s'.threads == s.threads[0 := s'.threads[0]];
  }

  lemma FirstConnection(s0: State) returns (s: State)
    requires Init(s0)
    ensures OnTheWay(s0, s, LoopCheck, map[1 := First(s0.clock)], [])
  {
    var states, labels: seq<Label> := [s0], [];
    assert IsRun(states, labels) && states[0] == s0 && states[|labels|] == s0;
    var adder := s0.nWorkers + 1;
    Further(s0, s0, Accept(0, 1, [EVENT]));
    s := Accepted(s0, 0, 1, [EVENT]);
    assert s.threads[adder] == Adder(Inserting(First(s0.clock)));
    var choice := HangingUp(s0);
    Further(s0, s, Run(adder, choice));
    s := ThreadStep(s, adder, choice);
  }

  /** The first task is neither always on nor expired: it is polled. */
  lemma FirstIsPolled(s0: State)
    ensures var choice := HangingUp(s0);
            var first := First(s0.clock);
            && Slots(TasksOf(choice.order), choice.clocks, s0.limit) == [Slot(1, EVENT)]
            && DueNow(map[1 := first], choice.clocks, s0.limit) == map[]
  {
    var choice, first := HangingUp(s0), First(s0.clock);
    assert LookAtNth(first, 0, choice.clocks, s0.limit) == Poll;
    assert SlotsOf(first, 0, choice.clocks, s0.limit) == [];
    assert SlotsOf(first, 1, choice.clocks, s0.limit) == [Slot(1, EVENT)];
    assert TasksOf(choice.order) == [first];
    assert Slots([first][..0], choice.clocks, s0.limit) == [];
  }

  lemma FirstRound(s0: State) returns (s: State)
    requires Init(s0)
    ensures OnTheWay(s0, s, LoopPoll([Slot(1, EVENT)], 0, map[]), map[1 := First(s0.clock)], [])
  {
    var choice, first := HangingUp(s0), First(s0.clock);
    s := FirstConnection(s0);
    LoopGoesOn(s0, s, LoopCheck, map[1 := first], [], choice);
    s := ThreadStep(s, 0, choice);
    FirstIsPolled(s0);
    assert T.IsTraversal(choice.order, s.taskQueue);
    LoopGoesOn(s0, s, LoopCollect, map[1 := first], [], choice);
    s := ThreadStep(s, 0, choice);
  }

  /** Poll reports a hang-up of the first connection. */
  lemma FirstHangsUp(s0: State) returns (s: State)
    requires Init(s0)
    ensures var nulled := Nulled(First(s0.clock));
            OnTheWay(s0, s, LoopDeploy(map[1 := nulled]), map[1 := nulled], [])
  {
    var choice, first := HangingUp(s0), First(s0.clock);
    s := FirstRound(s0);
    var slots, due := [Slot(1, EVENT)], map[1 := Nulled(first)];
    LoopGoesOn(s0, s, LoopPoll(slots, 0, map[]), map[1 := first], [], choice);
    s := ThreadStep(s, 0, choice);
    assert OnTheWay(s0, s, LoopPoll(slots, 1, due), due, []);
    LoopGoesOn(s0, s, LoopPoll(slots, 1, due), due, [], choice);
    s := ThreadStep(s, 0, choice);
  }

  /** The round takes it out of the tree, and the validation lets it pass. */
  lemma NulledPasses(s0: State) returns (s: State, th: Thread)
    requires Init(s0) && s0.clock <= s0.limit
    ensures OnTheWay(s0, s, th, map[], [])
    ensures var nulled := Nulled(First(s0.clock));
            th == if s0.nWorkers == 0 then LoopBusy(Calling(nulled), map[]) else LoopEnqueue(nulled, map[])
  {
    var choice, nulled := HangingUp(s0), Nulled(First(s0.clock));
    var due := map[1 := nulled];
    s := FirstHangsUp(s0);
    assert 1 in due.Keys && due - {1} == map[];
    LoopGoesOn(s0, s, LoopDeploy(due), due, [], choice);
    s := ThreadStep(s, 0, choice);
    assert OnTheWay(s0, s, LoopUncount(nulled, map[]), map[], []);
    LoopGoesOn(s0, s, LoopUncount(nulled, map[]), map[], [], choice);
    s := ThreadStep(s, 0, choice);
    assert OnTheWay(s0, s, LoopValidate(nulled, map[]), map[], []);
    LoopGoesOn(s0, s, LoopValidate(nulled, map[]), map[], [], choice);
    s := ThreadStep(s, 0, choice);
    th := s.threads[0];
  }

  /** Started too early, the first hang-up is enough to lose the process. */
  lemma NullIsCalled(s0: State) returns (s: State)
    requires Init(s0) && s0.clock <= s0.limit
    ensures ReachableFrom(s0, s) && Lost(s)
  {
    var choice, nulled := HangingUp(s0), Nulled(First(s0.clock));
    var th;
    s, th := NulledPasses(s0);
    if s0.nWorkers == 0 {
      assert CallsNull(s.threads[0]);
    } else {
      LoopGoesOn(s0, s, th, map[], [], choice);
      s := ThreadStep(s, 0, choice);
      assert s.workersQueue == [nulled] && s.threads[1] == WorkerCheck;
      Further(s0, s, Run(1, choice));
      s := ThreadStep(s, 1, choice);
      assert s.threads[1] == WorkerDequeue;
      Further(s0, s, Run(1, choice));
      s := ThreadStep(s, 1, choice);
      assert CallsNull(s.threads[1]);
    }
  }

  /** A call through a null handle can be reached if and only if the scheduler starts while its clock is not yet
      past one validity interval: a validity interval is read from the configuration unchecked. */
  lemma NullCallsIff(s0: State)
    requires Init(s0)
    ensures (exists s :: ReachableFrom(s0, s) && Lost(s)) <==> s0.clock <= s0.limit
  {
    if s0.clock <= s0.limit {
      var s := NullIsCalled(s0);
    } else {
      forall s | ReachableFrom(s0, s) ensures !Lost(s) {
        HungUpTasksDie(s0, s);
      }
    }
  }
}
