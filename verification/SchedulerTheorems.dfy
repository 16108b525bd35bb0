/** What the scheduler guarantees in every reachable state and over every run. */
module SchedulerTheorems {
  import opened Tasks
  import opened Readiness
  import opened Scheduler
  import opened SchedulerInvariant
  import opened Reachability
  import opened StructureProofs
  import opened WakeupProofs
  import T = SearchTree

  // ---- Requests and their tasks -----------------------------------------------------

  /** Where a task can be: in the task tree, in the workers' queue, in one thread's hands. */
  datatype Place = Waiting(id: int) | Ready(position: nat) | InHand(thread: nat)

  ghost function At(s: State, p: Place): Option<Task>
  {
    match p
    case Waiting(id) => if id in s.taskQueue.Keys then Some(s.taskQueue[id]) else None
    case Ready(j) => if j < |s.workersQueue| then Some(s.workersQueue[j]) else None
    case InHand(i) => if i < |s.threads| then Held(s.threads[i]) else None
  }

  ghost predicate SpeaksAt(s: State, p: Place, r: nat)
  {
    At(s, p).Some? && At(s, p).value.request == r
  }

  lemma {:induction false} QueuedOfTwo(queue: seq<Task>, i: nat, j: nat, r: nat)
    requires i < j < |queue| && queue[i].request == r && queue[j].request == r
    ensures Queued(queue, r) >= 2
  {
    if i == 0 {
      QueuedOne(queue[1..], j - 1);
    } else {
      QueuedOfTwo(queue[1..], i - 1, j - 1, r);
    }
  }

  /** A place that speaks for a request makes it count. */
  lemma PlaceCounts(s: State, p: Place, r: nat)
    requires Structure(s) && SpeaksAt(s, p, r)
    ensures Live(s, r)
    ensures match p
            case Waiting(id) => id == s.requests[r].sock
            case Ready(_) => Queued(s.workersQueue, r) > 0
            case InHand(_) => Total(Speaks(r), s.threads) > 0
  {
    match p
    case Waiting(_) =>
    case Ready(j) => QueuedOne(s.workersQueue, j);
    case InHand(i) =>
      assert HeldOk(s, s.threads[i]);
      TotalOfOne(Speaks(r), s.threads, i);
  }

  lemma PlacesAgree(s: State, p: Place, q: Place, r: nat)
    requires Structure(s) && SpeaksAt(s, p, r) && SpeaksAt(s, q, r)
    ensures p == q
  {
    PlaceCounts(s, p, r);
    PlaceCounts(s, q, r);
    assert Speakers(s, r) == 1;
    match (p, q)
    case (Ready(i), Ready(j)) =>
      if i < j { QueuedOfTwo(s.workersQueue, i, j, r); }
      if j < i { QueuedOfTwo(s.workersQueue, j, i, r); }
    case (InHand(i), InHand(j)) =>
      if i != j { TotalOfTwo(Speaks(r), s.threads, i, j); }
    case _ =>
  }

  lemma SpeakerExists(s: State, r: nat) returns (p: Place)
    requires Structure(s) && Live(s, r)
    ensures SpeaksAt(s, p, r)
  {
    assert Speakers(s, r) == 1;
    if Queued(s.workersQueue, r) > 0 {
      var j := SomeoneQueued(s.workersQueue, r);
      p := Ready(j);
    } else if Total(Speaks(r), s.threads) > 0 {
      var i := SomeoneWeighs(Speaks(r), s.threads);
      p := InHand(i);
    } else {
      p := Waiting(s.requests[r].sock);
    }
  }

  /** Conservation: finish_request is called at most once for a request; before that, exactly one
      task speaks for it, in exactly one place; afterwards, none does. */
  lemma OneTaskPerRequest(s: State, r: nat)
    requires Reachable(s) && r in s.requests.Keys
    ensures s.requests[r].finishes <= 1
    ensures s.requests[r].finishes == 0 <==> exists p :: SpeaksAt(s, p, r)
    ensures forall p, q :: SpeaksAt(s, p, r) && SpeaksAt(s, q, r) ==> p == q
  {
    ReachableInv(s);
    assert Speakers(s, r) + s.requests[r].finishes == 1;
    if Live(s, r) {
      var p := SpeakerExists(s, r);
    }
    forall p | SpeaksAt(s, p, r) ensures Live(s, r) {
      PlaceCounts(s, p, r);
    }
    forall p, q | SpeaksAt(s, p, r) && SpeaksAt(s, q, r) ensures p == q {
      PlacesAgree(s, p, q, r);
    }
  }

  /** Every task carries the socket of its request as id, and unless a hang-up took its handle,
      what remains to be called for the request ends in its only finish_request. */
  lemma EveryTaskLeadsToFinish(s: State, p: Place)
    requires Reachable(s) && At(s, p).Some?
    ensures var task := At(s, p).value;
            && Live(s, task.request) && task.id == s.requests[task.request].sock
            && (task.handle.Some? ==> WellChained(task))
            && (p.Waiting? ==> p.id == task.id)
  {
    ReachableInv(s);
    match p
    case InHand(i) => assert HeldOk(s, s.threads[i]);
    case _ =>
  }

  /** Ids stay distinct: two tasks anywhere never share one, so bst_insert overwrites nothing. */
  lemma IdsAreDistinct(s: State, p: Place, q: Place)
    requires Reachable(s) && At(s, p).Some? && At(s, q).Some? && At(s, p).value.id == At(s, q).value.id
    ensures p == q
  {
    EveryTaskLeadsToFinish(s, p);
    EveryTaskLeadsToFinish(s, q);
    ReachableInv(s);
    PlacesAgree(s, p, q, At(s, p).value.request);
  }

  lemma InsertionIsFresh(s: State, i: nat, task: Task)
    requires Reachable(s) && i < |s.threads| && ActivityOf(s.threads[i]) == Some(Inserting(task))
    ensures task.id !in s.taskQueue.Keys
  {
    if task.id in s.taskQueue.Keys {
      ReachableInv(s);
      IdsAreDistinct(s, Waiting(task.id), InHand(i));
    }
  }

  // ---- pending_task -----------------------------------------------------------------

  /** pending_task is the size of the task tree but for the steps in flight: it lacks the tasks just
      inserted and still holds the tasks just deployed. */
  lemma PendingTaskIsExact(s: State)
    requires Reachable(s)
    ensures s.pending == |s.taskQueue.Keys| - Total(ToCount, s.threads) + Total(ToUncount, s.threads)
    ensures s.pending >= 0 - Total(ToCount, s.threads)
    ensures (forall i :: 0 <= i < |s.threads| ==> ActivityOf(s.threads[i]) != Some(Counting) && !s.threads[i].LoopUncount?)
            ==> s.pending == |s.taskQueue.Keys|
  {
    ReachableInv(s);
    if Total(ToCount, s.threads) > 0 {
      var i := SomeoneWeighs(ToCount, s.threads);
    }
    if Total(ToUncount, s.threads) > 0 {
      var i := SomeoneWeighs(ToUncount, s.threads);
    }
  }

  // ---- Wake-ups ---------------------------------------------------------------------

  /** While the scheduler runs, every ready task has a worker to come for it: a pending post, a post
      about to be made, or a worker that is not going to sleep. */
  lemma NoLostWorkerWakeup(s: State)
    requires Reachable(s) && s.status
    ensures |s.workersQueue| <= s.workerSem + Total(ToWake, s.threads) + Total(Awake, s.threads)
    ensures s.workersQueue != [] ==>
              || s.workerSem > 0
              || exists i :: 0 <= i < |s.threads| &&
                   (s.threads[i].LoopWake? || s.threads[i].WorkerCheck? || s.threads[i].WorkerDequeue? || s.threads[i].WorkerBusy?)
  {
    ReachableInv(s);
    if Total(ToWake, s.threads) > 0 {
      var i := SomeoneWeighs(ToWake, s.threads);
    } else if Total(Awake, s.threads) > 0 {
      var i := SomeoneWeighs(Awake, s.threads);
    }
  }

  /** The event loop never sleeps on a waiting task: a post is there or about to be made. */
  lemma NoLostLoopWakeup(s: State)
    requires Reachable(s) && |s.threads| > 0 && s.threads[0].LoopSleep? && s.taskQueue.Keys != {}
    ensures || s.schedulerSem > 0
            || exists i :: 0 <= i < |s.threads| &&
                 (ActivityOf(s.threads[i]) == Some(Counting) || ActivityOf(s.threads[i]) == Some(Posting))
  {
    ReachableInv(s);
    if Total(ToPost, s.threads) > 0 {
      var i := SomeoneWeighs(ToPost, s.threads);
    }
  }

  /** Between two rounds the event loop goes to sleep if and only if no task waits. */
  lemma LoopRestsIff(s: State, choice: Choice)
    requires CanStep(s, 0, choice) && s.threads[0].LoopIdle?
    ensures var th' := ThreadStep(s, 0, choice).threads[0];
            (th'.LoopSleep? <==> |s.taskQueue| == 0) && (th'.LoopCheck? <==> |s.taskQueue| > 0)
  {
    assert |s.taskQueue| == |s.taskQueue.Keys|;
  }

  // ---- Progress ---------------------------------------------------------------------

  ghost predicate CanAdvance(s: State, i: nat)
  {
    exists choice :: CanStep(s, i, choice)
  }

  lemma SomeReturn(handle: Handle) returns (ret: Return)
    ensures CanReturn(handle, ret)
  {
    ret := if handle == FinishRequest then Null else Fresh(None, [], 0, []);
  }

  /** Any finite map can be walked in ascending order: enter it into a search tree. */
  lemma SomeTree<D>(m: map<int, D>) returns (t: T.Tree<D>)
    ensures T.Ordered(t) && T.Entries(t) == m
    decreases m.Keys
  {
    t := T.Leaf;
    if k :| k in m.Keys {
      var rest := m - {k};
      t := SomeTree(rest);
      T.InsertRefines(t, k, m[k]);
      t := T.Insert(t, k, m[k]);
      assert m == rest[k := m[k]];
    } else {
      assert forall k :: k !in m.Keys;
    }
  }

  /** A thread about to call through a null handle. */
  predicate CallsNull(th: Thread)
  {
    ActivityOf(th).Some? && ActivityOf(th).value.Calling? && ActivityOf(th).value.task.handle.None?
  }

  /** The process is lost: some thread is about to. HangUps shows when this can happen. */
  ghost predicate Lost(s: State)
  {
    exists i :: 0 <= i < |s.threads| && CallsNull(s.threads[i])
  }

  /** Only the two semaphores, and the end of the thread, can hold a thread up. */
  lemma OnlySleepBlocks(s: State, i: nat)
    requires Structure(s) && i < |s.threads| && !CallsNull(s.threads[i])
    requires match s.threads[i]
             case WorkerSleep => s.workerSem > 0
             case LoopSleep => s.schedulerSem > 0
             case WorkerExit | AdderDone | LoopExit => false
             case _ => true
    ensures CanAdvance(s, i)
  {
    assert HeldOk(s, s.threads[i]);
    var tree := SomeTree(s.taskQueue);
    T.VisitsTraverse(tree);
    var ret := Null;
    if ActivityOf(s.threads[i]).Some? && ActivityOf(s.threads[i]).value.Calling? {
      ret := SomeReturn(ActivityOf(s.threads[i]).value.task.handle.value);
    }
    var choice := Choice(ret, T.Visits(tree), (id, k) => Reading(0, Time(0, 0)), false,
                         Revents(false, false, false, false));
    assert CanStep(s, i, choice);
  }

  /** The threads that have to move next for the task at `p` to move on. */
  ghost predicate Serves(s: State, i: nat, p: Place)
  {
    && i < |s.threads|
    && match p
       case InHand(j) => i == j
       case Ready(_) => IsWorker(s.threads[i]) || s.threads[i].LoopWake?
       case Waiting(_) => i == 0 || Weigh(ToPost, s.threads[i]) > 0
  }

  lemma ReadyIsServed(s: State, j: nat) returns (i: nat)
    requires Inv(s) && !Lost(s) && s.status && j < |s.workersQueue|
    ensures Serves(s, i, Ready(j)) && CanAdvance(s, i)
  {
    if Total(ToWake, s.threads) > 0 {
      i := SomeoneWeighs(ToWake, s.threads);
    } else if Total(Awake, s.threads) > 0 {
      i := SomeoneWeighs(Awake, s.threads);
    } else {
      i := 1;
      WorkersAllSleep(s);
    }
    OnlySleepBlocks(s, i);
  }

  /** With no worker awake and the scheduler running, the first worker is asleep, not gone. */
  lemma WorkersAllSleep(s: State)
    requires Inv(s) && s.status && s.workersQueue != [] && Total(Awake, s.threads) == 0
    ensures s.threads[1].WorkerSleep?
  {
    TotalOfOne(Awake, s.threads, 1);
  }

  lemma WaitingIsServed(s: State, id: int) returns (i: nat)
    requires Inv(s) && !Lost(s) && s.status && id in s.taskQueue.Keys
    ensures Serves(s, i, Waiting(id)) && CanAdvance(s, i)
  {
    i := 0;
    if s.threads[0].LoopSleep? && s.schedulerSem == 0 {
      i := SomeoneWeighs(ToPost, s.threads);
    }
    OnlySleepBlocks(s, i);
  }

  /** No request is ever stuck: while the scheduler runs and the process is not lost, one of the threads that
      its current task depends on can take a step. */
  lemma NoRequestIsStuck(s: State, r: nat)
    requires Reachable(s) && !Lost(s) && s.status && r in s.requests.Keys && s.requests[r].finishes == 0
    ensures exists p, i :: SpeaksAt(s, p, r) && Serves(s, i, p) && CanAdvance(s, i)
  {
    hide Reachable, CanAdvance, Inv;
    ReachableInv(s);
    var p := SpeakerExists(s, r);
    var i: nat;
    match p
    case Waiting(id) => i := WaitingIsServed(s, id);
    case Ready(j) => i := ReadyIsServed(s, j);
    case InHand(j) =>
      i := j;
      OnlySleepBlocks(s, i);
  }

  // ---- Shutdown ---------------------------------------------------------------------

  /** Once stop() has made its posts, no worker that still runs is blocked. */
  lemma StopLeavesNobodyAsleep(s: State, i: nat)
    requires Reachable(s) && (s.stopper.WakingLoop? || s.stopper.Joining? || s.stopper.Stopped?)
    requires i < |s.threads| && IsWorker(s.threads[i]) && !s.threads[i].WorkerExit?
    ensures !CallsNull(s.threads[i]) ==> CanAdvance(s, i)
  {
    ReachableInv(s);
    TotalOfOne(Blockable, s.threads, i);
    if !CallsNull(s.threads[i]) {
      OnlySleepBlocks(s, i);
    }
  }

  /** How many steps a worker can still take once status is cleared. */
  function StepsLeft(th: Thread): nat
  {
    match th
    case WorkerDequeue => 6
    case WorkerBusy(Calling(_)) => 5
    case WorkerBusy(Inserting(_)) => 4
    case WorkerBusy(Counting) => 3
    case WorkerBusy(Posting) => 2
    case WorkerSleep => 2
    case WorkerCheck => 1
    case _ => 0
  }

  /** The steps thread `i` takes in a piece of a run, and the waits on the workers' semaphore it passes. */
  function Steps(labels: seq<Label>, i: nat): nat
  {
    if labels == [] then 0
    else Steps(labels[..|labels| - 1], i) + if Moves(labels[|labels| - 1], i) then 1 else 0
  }

  predicate Moves(l: Label, i: nat)
  {
    l.Run? && l.thread == i
  }

  function Waits(states: seq<State>, labels: seq<Label>, i: nat): nat
    requires |states| == |labels| + 1 && forall n :: 0 <= n < |states| ==> i < |states[n].threads|
  {
    if labels == [] then 0
    else
      var n := |labels| - 1;
      Waits(states[..n + 1], labels[..n], i)
      + if Moves(labels[n], i) && states[n].threads[i].WorkerSleep? then 1 else 0
  }

  /** One step of a worker after status is cleared brings it closer to its end. */
  lemma WorkerWindsDown(s: State, i: nat, choice: Choice)
    requires CanStep(s, i, choice) && !s.status && IsWorker(s.threads[i])
    ensures var th, th' := s.threads[i], ThreadStep(s, i, choice).threads[i];
            && IsWorker(th') && StepsLeft(th') < StepsLeft(th)
            && Weigh(Blockable, th') + (if th.WorkerSleep? then 1 else 0) <= Weigh(Blockable, th)
  {}

  /** Nothing but its own steps touches a thread, and nothing sets status again. */
  lemma OthersStay(s: State, l: Label, i: nat)
    requires Inv(s) && Enabled(s, l) && i < |s.threads|
    ensures var s' := Apply(s, l);
            i < |s'.threads| && (!s.status ==> !s'.status) && (!Moves(l, i) ==> s'.threads[i] == s.threads[i])
  {
    if l.Run? {
      StepEffect(s, l.thread, l.choice);
    }
  }

  /** `states` is a piece of a run that starts at a reachable state. */
  ghost predicate IsSegment(states: seq<State>, labels: seq<Label>)
  {
    && |states| == |labels| + 1
    && Reachable(states[0])
    && forall n :: 0 <= n < |labels| ==> Enabled(states[n], labels[n]) && states[n + 1] == Apply(states[n], labels[n])
  }

  lemma {:induction false} SegmentInv(states: seq<State>, labels: seq<Label>, n: nat)
    requires IsSegment(states, labels) && n < |states|
    ensures Inv(states[n])
  {
    if n == 0 {
      ReachableInv(states[0]);
    } else {
      SegmentInv(states, labels, n - 1);
      StepInv(states[n - 1], labels[n - 1]);
    }
  }

  /** After stop() clears status a worker takes at most six more steps and passes at most one more
      wait, however the other threads interleave. */
  lemma {:induction false} ShutdownIsBounded(states: seq<State>, labels: seq<Label>, i: nat)
    requires IsSegment(states, labels) && !states[0].status
    requires i < |states[0].threads| && IsWorker(states[0].threads[i])
    ensures forall n :: 0 <= n < |states| ==> i < |states[n].threads| && IsWorker(states[n].threads[i])
    ensures var last := states[|labels|];
            && !last.status
            && Steps(labels, i) + StepsLeft(last.threads[i]) <= StepsLeft(states[0].threads[i]) <= 6
            && Waits(states, labels, i) + Weigh(Blockable, last.threads[i]) <= Weigh(Blockable, states[0].threads[i]) <= 1
  {
    if labels != [] {
      var n := |labels| - 1;
      ShutdownIsBounded(states[..n + 1], labels[..n], i);
      SegmentInv(states, labels, n);
      OthersStay(states[n], labels[n], i);
      if Moves(labels[n], i) {
        WorkerWindsDown(states[n], i, labels[n].choice);
      }
      assert forall m :: 0 <= m <= n ==> states[..n + 1][m] == states[m];
    }
  }

  // ---- The event loop's own end -----------------------------------------------------------

  /** The post stop() makes to the event loop stays until the loop takes it. */
  ghost predicate LoopPosted(s: State)
  {
    (s.stopper.Joining? || s.stopper.Stopped?) && |s.threads| > 0
    && !s.threads[0].LoopCheck? && !s.threads[0].LoopExit? ==>
      s.schedulerSem > 0
  }

  lemma WorkersOnlyWait(s: State, i: nat, choice: Choice)
    requires 0 < i && CanStep(s, i, choice) && IsWorker(s.threads[i]) && !s.threads[i].WorkerBusy?
    ensures var s' := ThreadStep(s, i, choice);
            s'.threads[0] == s.threads[0] && s'.schedulerSem == s.schedulerSem && s'.stopper == s.stopper
  {}

  lemma ActivitiesOnlyPost(s: State, i: nat, choice: Choice)
    requires 0 < i && CanStep(s, i, choice) && ActivityOf(s.threads[i]).Some?
    ensures var s' := ThreadStep(s, i, choice);
            s'.threads[0] == s.threads[0] && s'.schedulerSem >= s.schedulerSem && s'.stopper == s.stopper
  {
    hide CanReturn, AfterCall;
    assert ThreadStep(s, i, choice) == ActivityStep(s, i, ActivityOf(s.threads[i]).value, choice);
  }

  /** Only a sleeping loop takes a post, and with status cleared it then ends. */
  lemma LoopTakesPost(s: State, choice: Choice)
    requires CanStep(s, 0, choice) && IsLoop(s.threads[0]) && !s.threads[0].LoopBusy?
    ensures var s' := ThreadStep(s, 0, choice);
            && |s'.threads| > 0 && s'.stopper == s.stopper
            && (if s.threads[0].LoopSleep? then s'.threads[0].LoopCheck? else s'.schedulerSem >= s.schedulerSem)
            && (s.threads[0].LoopCheck? && !s.status ==> s'.threads[0].LoopExit?)
  {
    if s.threads[0].LoopPoll? || s.threads[0].LoopDeploy? {
      PollingTakesNoPost(s, choice);
      hide ThreadStep;
    } else {
      hide Slots, DueNow, CanReturn;
    }
  }

  lemma PollingTakesNoPost(s: State, choice: Choice)
    requires CanStep(s, 0, choice) && (s.threads[0].LoopPoll? || s.threads[0].LoopDeploy?)
    ensures var s' := ThreadStep(s, 0, choice);
            |s'.threads| > 0 && s'.stopper == s.stopper && s'.schedulerSem == s.schedulerSem
  {
    hide Judge;
  }

  lemma LoopActivityPosts(s: State, choice: Choice)
    requires CanStep(s, 0, choice) && s.threads[0].LoopBusy?
    ensures var s' := ThreadStep(s, 0, choice);
            |s'.threads| > 0 && s'.stopper == s.stopper && s'.schedulerSem >= s.schedulerSem
  {
    hide CanReturn, AfterCall;
    assert ThreadStep(s, 0, choice) == ActivityStep(s, 0, s.threads[0].act, choice);
  }

  lemma PostStays(s: State, i: nat, choice: Choice)
    requires Inv(s) && LoopPosted(s) && CanStep(s, i, choice)
    ensures LoopPosted(ThreadStep(s, i, choice))
  {
    if i > 0 {
      assert IsWorker(s.threads[i]) || s.threads[i].Adder?;
      if IsWorker(s.threads[i]) && !s.threads[i].WorkerBusy? {
        WorkersOnlyWait(s, i, choice);
      } else {
        ActivitiesOnlyPost(s, i, choice);
      }
      hide Inv, CanStep, ThreadStep;
    } else if s.threads[0].LoopBusy? {
      LoopActivityPosts(s, choice);
      hide Inv, CanStep, ThreadStep;
    } else {
      assert IsLoop(s.threads[0]) && (s.stopper.Joining? || s.stopper.Stopped? ==> !s.status);
      LoopTakesPost(s, choice);
      hide Inv, CanStep, ThreadStep;
    }
  }

  lemma LabelKeepsPost(s: State, l: Label)
    requires Inv(s) && LoopPosted(s) && Enabled(s, l)
    ensures LoopPosted(Apply(s, l))
  {
    if l.Run? {
      PostStays(s, l.thread, l.choice);
    }
  }

  lemma {:induction false} RunKeepsPost(states: seq<State>, labels: seq<Label>, n: nat)
    requires IsRun(states, labels) && n < |states|
    ensures LoopPosted(states[n])
  {
    if n > 0 {
      hide LoopPosted, Inv, Apply, Enabled;
      RunKeepsPost(states, labels, n - 1);
      RunInv(states, labels, n - 1);
      LabelKeepsPost(states[n - 1], labels[n - 1]);
    }
  }

  /** Once stop() has posted to it, a sleeping event loop finds the post: until it ends it can take a step. */
  lemma StopWakesTheLoop(s: State)
    requires Reachable(s) && (s.stopper.Joining? || s.stopper.Stopped?)
    ensures |s.threads| > 0 && (s.threads[0].LoopSleep? ==> s.schedulerSem > 0)
    ensures !CallsNull(s.threads[0]) && !s.threads[0].LoopExit? ==> CanAdvance(s, 0)
  {
    var states, labels :| IsRun(states, labels) && states[|labels|] == s;
    RunKeepsPost(states, labels, |labels|);
    ReachableInv(s);
    if !CallsNull(s.threads[0]) && !s.threads[0].LoopExit? {
      OnlySleepBlocks(s, 0);
    }
  }

  /** How many steps the event loop can still take once status is cleared and its walk is behind it. */
  function LoopStepsLeft(th: Thread): nat
  {
    match th
    case LoopPoll(slots, next, due) => 5 + (if next < |slots| then 8 * (|slots| - next) else 0) + 7 * |due|
    case LoopDeploy(due) => 4 + 7 * |due|
    case LoopUncount(_, due) => 10 + 7 * |due|
    case LoopValidate(_, due) => 9 + 7 * |due|
    case LoopBusy(Calling(_), due) => 8 + 7 * |due|
    case LoopBusy(Inserting(_), due) => 7 + 7 * |due|
    case LoopBusy(Counting, due) => 6 + 7 * |due|
    case LoopBusy(Posting, due) => 5 + 7 * |due|
    case LoopEnqueue(_, due) => 6 + 7 * |due|
    case LoopWake(due) => 5 + 7 * |due|
    case LoopIdle => 3
    case LoopSleep => 2
    case LoopCheck => 1
    case _ => 0
  }

  lemma LoopLooksDown(s: State, choice: Choice)
    requires CanStep(s, 0, choice) && s.threads[0].LoopPoll?
    ensures var th' := ThreadStep(s, 0, choice).threads[0];
            IsLoop(th') && !th'.LoopCollect? && LoopStepsLeft(th') < LoopStepsLeft(s.threads[0])
  {
    hide Judge;
  }

  lemma LoopActsDown(s: State, choice: Choice)
    requires CanStep(s, 0, choice) && s.threads[0].LoopBusy?
    ensures var th' := ThreadStep(s, 0, choice).threads[0];
            IsLoop(th') && !th'.LoopCollect? && LoopStepsLeft(th') < LoopStepsLeft(s.threads[0])
  {
    hide CanReturn, AfterCall;
    assert ThreadStep(s, 0, choice) == ActivityStep(s, 0, s.threads[0].act, choice);
  }

  lemma LoopDeploysDown(s: State, choice: Choice)
    requires CanStep(s, 0, choice) && s.threads[0].LoopDeploy?
    ensures var th' := ThreadStep(s, 0, choice).threads[0];
            IsLoop(th') && !th'.LoopCollect? && LoopStepsLeft(th') < LoopStepsLeft(s.threads[0])
  {
    var due := s.threads[0].due;
    if k :| k in due.Keys {
      OneLess(due, Least(due.Keys));
    }
  }

  lemma OneLess(due: map<int, Task>, k: int)
    requires k in due.Keys
    ensures |due - {k}| == |due| - 1
  {}

  lemma LoopDelegatesDown(s: State, choice: Choice)
    requires CanStep(s, 0, choice)
    requires s.threads[0].LoopUncount? || s.threads[0].LoopValidate? || s.threads[0].LoopEnqueue? || s.threads[0].LoopWake?
    ensures var th' := ThreadStep(s, 0, choice).threads[0];
            IsLoop(th') && !th'.LoopCollect? && LoopStepsLeft(th') < LoopStepsLeft(s.threads[0])
  {
    if s.threads[0].LoopValidate? {
      ValidationIsAStep(s, choice);
      hide ThreadStep;
    } else {
      hide Expired, Finished;
    }
  }

  lemma ValidationIsAStep(s: State, choice: Choice)
    requires CanStep(s, 0, choice) && s.threads[0].LoopValidate?
    ensures var th, th' := s.threads[0], ThreadStep(s, 0, choice).threads[0];
            || th' == LoopDeploy(th.due) || th' == LoopEnqueue(th.task, th.due)
            || th' == LoopBusy(Calling(th.task), th.due)
  {
    hide Expired;
  }

  lemma LoopTurnsDown(s: State, choice: Choice)
    requires CanStep(s, 0, choice) && !s.status
    requires s.threads[0].LoopCheck? || s.threads[0].LoopIdle? || s.threads[0].LoopSleep?
    ensures var th' := ThreadStep(s, 0, choice).threads[0];
            IsLoop(th') && !th'.LoopCollect? && LoopStepsLeft(th') < LoopStepsLeft(s.threads[0])
  {}

  /** One step of the event loop after status is cleared brings it closer to its end. */
  lemma LoopWindsDown(s: State, choice: Choice)
    requires CanStep(s, 0, choice) && !s.status && IsLoop(s.threads[0])
    ensures var th' := ThreadStep(s, 0, choice).threads[0];
            && IsLoop(th') && !th'.LoopCollect?
            && (!s.threads[0].LoopCollect? ==> LoopStepsLeft(th') < LoopStepsLeft(s.threads[0]))
  {
    if s.threads[0].LoopPoll? {
      LoopLooksDown(s, choice);
    } else if s.threads[0].LoopBusy? {
      LoopActsDown(s, choice);
    } else if s.threads[0].LoopDeploy? {
      LoopDeploysDown(s, choice);
    } else if s.threads[0].LoopCheck? || s.threads[0].LoopIdle? || s.threads[0].LoopSleep? {
      LoopTurnsDown(s, choice);
    } else if !s.threads[0].LoopCollect? {
      LoopDelegatesDown(s, choice);
    }
  }

  /** After stop() clears status the event loop finishes the round it is in and ends: once its walk over the task
      tree is behind it, it takes no more steps than the poll slots and the scheduled tasks of that round allow,
      however the other threads interleave. */
  lemma {:induction false} LoopShutdownIsBounded(states: seq<State>, labels: seq<Label>)
    requires IsSegment(states, labels) && !states[0].status
    requires |states[0].threads| > 0 && IsLoop(states[0].threads[0]) && !states[0].threads[0].LoopCollect?
    ensures var last := states[|labels|];
            && !last.status && |last.threads| > 0 && IsLoop(last.threads[0]) && !last.threads[0].LoopCollect?
            && Steps(labels, 0) + LoopStepsLeft(last.threads[0]) <= LoopStepsLeft(states[0].threads[0])
  {
    hide Reachable, Enabled, Apply, Inv, LoopStepsLeft, IsLoop;
    if labels != [] {
      var n := |labels| - 1;
      LoopShutdownIsBounded(states[..n + 1], labels[..n]);
      SegmentInv(states, labels, n);
      AnyStepWindsDown(states[n], labels[n]);
    }
  }

  lemma AnyStepWindsDown(s: State, l: Label)
    requires Inv(s) && Enabled(s, l) && !s.status
    requires |s.threads| > 0 && IsLoop(s.threads[0]) && !s.threads[0].LoopCollect?
    ensures var s' := Apply(s, l);
            && !s'.status && |s'.threads| > 0 && IsLoop(s'.threads[0]) && !s'.threads[0].LoopCollect?
            && LoopStepsLeft(s'.threads[0]) + (if Moves(l, 0) then 1 else 0) <= LoopStepsLeft(s.threads[0])
  {
    hide Inv, CanStep, ThreadStep, LoopStepsLeft, IsLoop;
    OthersStay(s, l, 0);
    if Moves(l, 0) {
      LoopWindsDown(s, l.choice);
    }
  }
}
