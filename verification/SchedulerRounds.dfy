/** One round of the event loop within a run, whatever the other threads do meanwhile: adders and workers insert
    tasks while it polls and deploys, and with no workers its own handler calls do. */
module Rounds {
  import opened Tasks
  import opened Readiness
  import opened PollBits
  import opened Scheduler
  import opened SchedulerInvariant
  import opened StructureProofs
  import opened Reachability
  import opened SchedulerTheorems
  import T = SearchTree

  /** What a round starts from: the waiting tasks at its walk over the tree, and what the clocks read. */
  datatype Plan = Plan(snapshot: map<int, Task>, slots: seq<Slot>, clocks: Clocks, limit: int)

  ghost function PlanOf(s: State, choice: Choice): Plan
  {
    Plan(s.taskQueue, Slots(TasksOf(choice.order), choice.clocks, s.limit), choice.clocks, s.limit)
  }

  /** The poll results looked at so far, as a reply to every slot. */
  function Replies(seen: seq<Revents>): nat -> Revents
  {
    (i: nat) => if i < |seen| then seen[i] else Revents(false, false, false, false)
  }

  ghost predicate MustRun(p: Plan, seen: seq<Revents>, k: int)
    requires |seen| <= |p.slots| && k in p.snapshot.Keys
  {
    Readiness.Ready(p.snapshot[k], p.slots, |seen|, Replies(seen), p.clocks, p.limit)
  }

  /** The task of the snapshot, without its handle if its descriptor hung up. */
  ghost function Marked(p: Plan, seen: seq<Revents>, k: int): Task
    requires |seen| <= |p.slots| && k in p.snapshot.Keys
  {
    if Judged(p.slots, |seen|, Replies(seen), k, HangUp) then Nulled(p.snapshot[k]) else p.snapshot[k]
  }

  // ---- What the steps of a run do for the round -------------------------------------------

  /** The poll result this step looks at. */
  ghost function LooksAt(s: State, l: Label): seq<Revents>
  {
    if l.Run? && l.thread == 0 && |s.threads| > 0 && s.threads[0].LoopPoll?
       && s.threads[0].next < |s.threads[0].slots| && l.choice.examine
    then [l.choice.revents] else []
  }

  /** The task this step takes out of the task tree. */
  ghost function TakesOut(s: State, l: Label): seq<Task>
  {
    if l.Run? && l.thread == 0 && |s.threads| > 0 && s.threads[0].LoopDeploy? && exists k :: k in s.threads[0].due.Keys
    then [s.threads[0].due[Least(s.threads[0].due.Keys)]] else []
  }

  ghost function Examined(states: seq<State>, labels: seq<Label>): seq<Revents>
    requires |states| == |labels| + 1
  {
    if labels == [] then []
    else
      var n := |labels| - 1;
      Examined(states[..n + 1], labels[..n]) + LooksAt(states[n], labels[n])
  }

  ghost function TakenOut(states: seq<State>, labels: seq<Label>): seq<Task>
    requires |states| == |labels| + 1
  {
    if labels == [] then []
    else
      var n := |labels| - 1;
      TakenOut(states[..n + 1], labels[..n]) + TakesOut(states[n], labels[n])
  }

  lemma FreshInsertion(s: State, i: nat)
    requires Inv(s) && i < |s.threads|
    ensures var act := ActivityOf(s.threads[i]);
            act.Some? && act.value.Inserting? ==> act.value.task.id !in s.taskQueue.Keys
  {
    var act := ActivityOf(s.threads[i]);
    if act.Some? && act.value.Inserting? {
      assert HeldOk(s, s.threads[i]);
      SoleHolder(s, i, act.value.task.request);
    }
  }

  lemma ScheduledWaits(s: State)
    requires Inv(s)
    ensures |s.threads| > 0 && IsLoop(s.threads[0]) && DueOk(s, Schedule(s.threads[0]))
    ensures forall k :: k in s.taskQueue.Keys ==> s.taskQueue[k].id == k
    ensures forall i :: 0 < i < |s.threads| ==> !IsLoop(s.threads[i])
  {}

  /** The other threads leave the loop where it is and its waiting tasks as they are. */
  lemma OthersOnlyAdd(s: State, l: Label)
    requires Inv(s) && Enabled(s, l) && !Moves(l, 0)
    ensures var s' := Apply(s, l);
            && |s'.threads| > 0 && s'.threads[0] == s.threads[0]
            && forall k :: k in s.taskQueue.Keys ==> k in s'.taskQueue.Keys && s'.taskQueue[k] == s.taskQueue[k]
  {
    hide Inv, CanStep, ThreadStep;
    ScheduledWaits(s);
    OthersStay(s, l, 0);
    if l.Run? {
      OtherThreadAdds(s, l.thread, l.choice);
    }
  }

  lemma OtherThreadAdds(s: State, i: nat, choice: Choice)
    requires Inv(s) && 0 < i && CanStep(s, i, choice)
    ensures var s' := ThreadStep(s, i, choice);
            forall k :: k in s.taskQueue.Keys ==> k in s'.taskQueue.Keys && s'.taskQueue[k] == s.taskQueue[k]
  {
    hide Inv, CanReturn, AfterCall, Judge, Slots, DueNow;
    StepsWithin(s, i, choice);
    ScheduledWaits(s);
    FreshInsertion(s, i);
  }

  lemma StepsWithin(s: State, i: nat, choice: Choice)
    requires CanStep(s, i, choice)
    ensures i < |s.threads|
  {
  }

  lemma LoopTakesOut(s: State, choice: Choice, k: int)
    requires Inv(s) && CanStep(s, 0, choice) && k in s.taskQueue.Keys
    ensures var l, s' := Run(0, choice), ThreadStep(s, 0, choice);
            if TakesOut(s, l) != [] && TakesOut(s, l)[0].id == k
            then k !in s'.taskQueue.Keys && TakesOut(s, l)[0] == s.taskQueue[k]
            else k in s'.taskQueue.Keys
  {
    ScheduledWaits(s);
    hide Inv, CanReturn, AfterCall, Judge;
  }

  /** Nothing leaves the task tree but what the event loop takes out of it. */
  lemma OnlyTheLoopTakesOut(s: State, l: Label, k: int)
    requires Inv(s) && Enabled(s, l) && k in s.taskQueue.Keys
    ensures if TakesOut(s, l) != [] && TakesOut(s, l)[0].id == k
            then k !in Apply(s, l).taskQueue.Keys && TakesOut(s, l)[0] == s.taskQueue[k]
            else k in Apply(s, l).taskQueue.Keys
  {
    if Moves(l, 0) {
      LoopTakesOut(s, l.choice, k);
    } else {
      OthersOnlyAdd(s, l);
    }
  }

  // ---- How far a round has come -----------------------------------------------------------

  /** While polling: the schedule has the tasks that must run by what was seen, and the snapshot still waits. */
  ghost predicate Polling(s: State, p: Plan, seen: seq<Revents>, due: map<int, Task>)
    requires |seen| <= |p.slots|
  {
    && (forall k :: k in due.Keys ==> k in p.snapshot.Keys)
    && forall k :: k in p.snapshot.Keys ==>
         && (k in due.Keys <==> MustRun(p, seen, k))
         && (k in due.Keys ==> due[k] == Marked(p, seen, k))
         && k in s.taskQueue.Keys && s.taskQueue[k] == Marked(p, seen, k)
  }

  /** While deploying: what must run is taken out already or still scheduled, in ascending order. */
  ghost predicate Deploying(p: Plan, seen: seq<Revents>, due: map<int, Task>, out: seq<Task>)
    requires |seen| <= |p.slots|
  {
    && (forall k :: k in due.Keys ==> k in p.snapshot.Keys && MustRun(p, seen, k) && due[k] == Marked(p, seen, k))
    && (forall j :: 0 <= j < |out| ==>
          var k := out[j].id; k in p.snapshot.Keys && MustRun(p, seen, k) && out[j] == Marked(p, seen, k))
    && (forall k :: k in p.snapshot.Keys && MustRun(p, seen, k) ==> k in due.Keys || IsOut(out, k))
    && (forall i, j :: 0 <= i < j < |out| ==> out[i].id < out[j].id)
    && (forall j, k :: 0 <= j < |out| && k in due.Keys ==> out[j].id < k)
  }

  predicate IsOut(out: seq<Task>, k: int)
  {
    exists j :: 0 <= j < |out| && out[j].id == k
  }

  ghost predicate Progress(s: State, p: Plan, seen: seq<Revents>, out: seq<Task>)
  {
    && |s.threads| > 0 && |seen| <= |p.slots| && s.limit == p.limit
    && (forall k :: k in p.snapshot.Keys ==> p.snapshot[k].id == k)
    && (forall j :: 0 <= j < |p.slots| ==> p.slots[j].id in p.snapshot.Keys)
    && match s.threads[0]
       case LoopPoll(slots, next, due) => slots == p.slots && next == |seen| && out == [] && Polling(s, p, seen, due)
       case LoopCheck | LoopCollect | LoopSleep | LoopExit => false
       case th => Deploying(p, seen, Schedule(th), out)
  }

  lemma NothingSeenYet(p: Plan, k: int)
    requires k in p.snapshot.Keys
    ensures MustRun(p, [], k) <==> RunsNow(p.snapshot[k], p.clocks, p.limit)
    ensures Marked(p, [], k) == p.snapshot[k]
  {}

  /** The walk over the task tree opens the round. */
  lemma RoundOpens(s: State, choice: Choice)
    requires Inv(s) && s.threads[0] == LoopCollect && CanStep(s, 0, choice)
    ensures Progress(ThreadStep(s, 0, choice), PlanOf(s, choice), [], [])
  {
    var p, s' := PlanOf(s, choice), ThreadStep(s, 0, choice);
    LoopKeepsStructure(s, choice);
    assert LoopOk(s', s'.threads[0]) && s'.taskQueue == s.taskQueue;
    hide MustRun, Marked, RunsNow, Slots;
    forall k | k in p.snapshot.Keys
      ensures MustRun(p, [], k) <==> RunsNow(p.snapshot[k], p.clocks, p.limit)
      ensures Marked(p, [], k) == p.snapshot[k]
    {
      NothingSeenYet(p, k);
    }
  }

  /** What one more poll result means. */
  lemma OneMoreSeen(p: Plan, seen: seq<Revents>, x: Revents, id: int, v: Verdict)
    requires |seen| < |p.slots|
    ensures Judged(p.slots, |seen| + 1, Replies(seen + [x]), id, v)
       <==> || Judged(p.slots, |seen|, Replies(seen), id, v)
            || (p.slots[|seen|].id == id && Judge(p.slots[|seen|].event.flags, x) == v)
  {
    hide Judge;
    var slots, n, more := p.slots, |seen|, Replies(seen + [x]);
    assert forall i :: 0 <= i < n ==> more(i) == Replies(seen)(i);
    assert more(n) == x;
    if Judged(slots, n, Replies(seen), id, v) {
      var i :| 0 <= i < n && slots[i].id == id && Judge(slots[i].event.flags, Replies(seen)(i)) == v;
      assert Judge(slots[i].event.flags, more(i)) == v;
    }
    if Judged(slots, n + 1, more, id, v) {
      var i :| 0 <= i < n + 1 && slots[i].id == id && Judge(slots[i].event.flags, more(i)) == v;
      assert i < n ==> Judge(slots[i].event.flags, Replies(seen)(i)) == v;
    }
  }

  /** One more result makes only the owner of its slot run, and only a hang-up takes its handle. */
  lemma OneMoreMarked(p: Plan, seen: seq<Revents>, x: Revents, k: int)
    requires |seen| < |p.slots| && k in p.snapshot.Keys && p.snapshot[k].id == k
    ensures var Slot(id, event) := p.slots[|seen|];
            var v := Judge(event.flags, x);
            && (MustRun(p, seen + [x], k) <==> MustRun(p, seen, k) || (id == k && v != Quiet))
            && Marked(p, seen + [x], k) == if id == k && v == HangUp then Nulled(Marked(p, seen, k)) else Marked(p, seen, k)
  {
    hide Judge, Judged;
    OneMoreSeen(p, seen, x, k, Fire);
    OneMoreSeen(p, seen, x, k, HangUp);
  }

  lemma LooksOn(s: State, p: Plan, seen: seq<Revents>, choice: Choice)
    requires Progress(s, p, seen, []) && CanStep(s, 0, choice)
    requires s.threads[0].LoopPoll? && |seen| < |p.slots| && choice.examine
    ensures Progress(ThreadStep(s, 0, choice), p, seen + [choice.revents], [])
  {
    hide Judge, MustRun, Marked;
    var LoopPoll(slots, next, due) := s.threads[0];
    var s', more := ThreadStep(s, 0, choice), seen + [choice.revents];
    assert s' == PollStep(s, 0, choice.revents);
    assert s'.threads[0].LoopPoll?;
    forall k | k in p.snapshot.Keys
      ensures var due' := s'.threads[0].due;
              && (k in due'.Keys <==> MustRun(p, more, k))
              && (k in due'.Keys ==> due'[k] == Marked(p, more, k))
              && k in s'.taskQueue.Keys && s'.taskQueue[k] == Marked(p, more, k)
    {
      OneMoreMarked(p, seen, choice.revents, k);
    }
  }

  lemma StartsDeploying(s: State, p: Plan, seen: seq<Revents>, out: seq<Task>, choice: Choice)
    requires Progress(s, p, seen, out) && CanStep(s, 0, choice)
    requires s.threads[0].LoopPoll? && (|seen| == |p.slots| || !choice.examine)
    ensures Progress(ThreadStep(s, 0, choice), p, seen, out)
  {
    hide MustRun, Marked;
  }

  lemma LeastTakenOut(p: Plan, seen: seq<Revents>, due: map<int, Task>, out: seq<Task>, k: int)
    requires |seen| <= |p.slots| && Deploying(p, seen, due, out) && IsLeast(k, due.Keys) && due[k].id == k
    ensures Deploying(p, seen, due - {k}, out + [due[k]])
  {
    hide MustRun, Marked;
    var out' := out + [due[k]];
    forall i | i in p.snapshot.Keys && MustRun(p, seen, i) ensures i in (due - {k}).Keys || IsOut(out', i) {
      if i == k {
        assert out'[|out|].id == i;
      } else if IsOut(out, i) {
        var j :| 0 <= j < |out| && out[j].id == i;
        assert out'[j].id == i;
      }
    }
  }

  lemma TakesTheLeast(s: State, p: Plan, seen: seq<Revents>, out: seq<Task>, choice: Choice)
    requires Progress(s, p, seen, out) && CanStep(s, 0, choice)
    requires s.threads[0].LoopDeploy? && exists k :: k in s.threads[0].due.Keys
    ensures Progress(ThreadStep(s, 0, choice), p, seen, out + TakesOut(s, Run(0, choice)))
  {
    var due := s.threads[0].due;
    var k := Least(due.Keys);
    assert Marked(p, seen, k).id == k;
    DeployStep(s, choice);
    hide MustRun, Marked, CanStep, ThreadStep, TakesOut;
    LeastTakenOut(p, seen, due, out, k);
    hide Deploying;
  }

  lemma DeployStep(s: State, choice: Choice)
    requires CanStep(s, 0, choice) && s.threads[0].LoopDeploy? && exists k :: k in s.threads[0].due.Keys
    ensures var due, s' := s.threads[0].due, ThreadStep(s, 0, choice);
            var k := Least(due.Keys);
            && s'.limit == s.limit && |s'.threads| > 0 && s'.threads[0] == LoopUncount(due[k], due - {k})
            && TakesOut(s, Run(0, choice)) == [due[k]]
  {
  }

  lemma NoKeys(due: map<int, Task>)
    requires forall k :: k !in due.Keys
    ensures due == map[]
  {
    var empty: map<int, Task> := map[];
    assert forall k :: k in due.Keys <==> k in empty.Keys;
    assert due.Keys == empty.Keys;
  }

  /** Past the polling, and with nothing to take out, the loop leaves its schedule as it is. */
  ghost predicate KeepsSchedule(s: State, s': State)
    requires |s.threads| > 0
  {
    && |s'.threads| > 0 && s'.limit == s.limit
    && var th' := s'.threads[0];
    && Schedule(th') == Schedule(s.threads[0])
    && !th'.LoopPoll? && !th'.LoopCheck? && !th'.LoopCollect? && !th'.LoopSleep? && !th'.LoopExit?
  }

  lemma ActivityKeepsSchedule(s: State, choice: Choice)
    requires CanStep(s, 0, choice) && s.threads[0].LoopBusy?
    ensures KeepsSchedule(s, ThreadStep(s, 0, choice))
  {
    hide CanReturn, AfterCall;
    var act := s.threads[0].act;
    assert ThreadStep(s, 0, choice) == ActivityStep(s, 0, act, choice);
  }

  lemma TurnKeepsSchedule(s: State, choice: Choice)
    requires CanStep(s, 0, choice)
    requires match s.threads[0]
             case LoopDeploy(due) => forall k :: k !in due.Keys
             case LoopUncount(_, _) | LoopValidate(_, _) | LoopEnqueue(_, _) | LoopWake(_) => true
             case _ => false
    ensures KeepsSchedule(s, ThreadStep(s, 0, choice))
  {
    if s.threads[0].LoopDeploy? {
      NoKeys(s.threads[0].due);
    }
  }

  lemma GoesOn(s: State, p: Plan, seen: seq<Revents>, out: seq<Task>, choice: Choice)
    requires Progress(s, p, seen, out) && CanStep(s, 0, choice) && IsLoop(s.threads[0])
    requires !s.threads[0].LoopPoll? && !s.threads[0].LoopIdle?
    requires s.threads[0].LoopDeploy? ==> forall k :: k !in s.threads[0].due.Keys
    ensures Progress(ThreadStep(s, 0, choice), p, seen, out)
  {
    hide Deploying, Polling, ThreadStep, Schedule;
    if s.threads[0].LoopBusy? {
      ActivityKeepsSchedule(s, choice);
    } else {
      TurnKeepsSchedule(s, choice);
    }
  }

  lemma LoopProgresses(s: State, p: Plan, seen: seq<Revents>, out: seq<Task>, choice: Choice)
    requires Inv(s) && Progress(s, p, seen, out) && CanStep(s, 0, choice) && !s.threads[0].LoopIdle?
    ensures var l := Run(0, choice);
            Progress(Apply(s, l), p, seen + LooksAt(s, l), out + TakesOut(s, l))
  {
    var th, l := s.threads[0], Run(0, choice);
    if th.LoopPoll? && |seen| < |p.slots| && choice.examine {
      LooksOn(s, p, seen, choice);
      assert out + TakesOut(s, l) == [];
    } else if th.LoopPoll? {
      StartsDeploying(s, p, seen, out, choice);
      assert seen + LooksAt(s, l) == seen && out + TakesOut(s, l) == out;
    } else if th.LoopDeploy? && exists k :: k in th.due.Keys {
      TakesTheLeast(s, p, seen, out, choice);
      assert seen + LooksAt(s, l) == seen;
    } else {
      GoesOn(s, p, seen, out, choice);
      assert seen + LooksAt(s, l) == seen && out + TakesOut(s, l) == out;
    }
  }

  // ---- Whole rounds -----------------------------------------------------------------------

  /** A piece of a run that begins with the walk over the task tree and has not gone past the end of that round. */
  ghost predicate IsRoundSoFar(states: seq<State>, labels: seq<Label>, choice: Choice)
  {
    && IsSegment(states, labels) && labels != [] && labels[0] == Run(0, choice)
    && |states[0].threads| > 0 && states[0].threads[0] == LoopCollect
    && forall m :: 0 < m < |labels| ==> |states[m].threads| > 0 && !states[m].threads[0].LoopIdle?
  }

  lemma {:induction false} RoundProgresses(states: seq<State>, labels: seq<Label>, choice: Choice)
    requires IsRoundSoFar(states, labels, choice)
    ensures Progress(states[|labels|], PlanOf(states[0], choice), Examined(states, labels), TakenOut(states, labels))
  {
    hide Progress, Inv, Reachable, Enabled, Apply, PlanOf, LooksAt, TakesOut;
    var n := |labels| - 1;
    var s, l := states[n], labels[n];
    SegmentInv(states, labels, n);
    if n == 0 {
      StartProgresses(s, choice);
    } else {
      var earlier, done := states[..n + 1], labels[..n];
      assert IsRoundSoFar(earlier, done, choice);
      RoundProgresses(earlier, done, choice);
      StepProgresses(s, l, PlanOf(states[0], choice), Examined(earlier, done), TakenOut(earlier, done));
    }
  }

  lemma StartProgresses(s: State, choice: Choice)
    requires Inv(s) && |s.threads| > 0 && s.threads[0] == LoopCollect && Enabled(s, Run(0, choice))
    ensures var l := Run(0, choice); Progress(Apply(s, l), PlanOf(s, choice), [] + LooksAt(s, l), [] + TakesOut(s, l))
  {
    RoundOpens(s, choice);
    hide Progress, Inv, PlanOf, CanStep, ThreadStep;
  }

  lemma StepProgresses(s: State, l: Label, p: Plan, seen: seq<Revents>, out: seq<Task>)
    requires Inv(s) && Enabled(s, l) && Progress(s, p, seen, out)
    requires |s.threads| > 0 && !s.threads[0].LoopIdle?
    ensures Progress(Apply(s, l), p, seen + LooksAt(s, l), out + TakesOut(s, l))
  {
    hide Progress, Inv, CanStep, ThreadStep;
    if Moves(l, 0) {
      LoopProgresses(s, p, seen, out, l.choice);
    } else {
      OthersKeepProgress(s, l, p, seen, out);
      assert seen + LooksAt(s, l) == seen && out + TakesOut(s, l) == out;
    }
  }

  lemma OthersKeepProgress(s: State, l: Label, p: Plan, seen: seq<Revents>, out: seq<Task>)
    requires Inv(s) && Enabled(s, l) && !Moves(l, 0) && Progress(s, p, seen, out)
    ensures Progress(Apply(s, l), p, seen, out)
  {
    OthersOnlyAdd(s, l);
    LimitStays(s, l);
    hide MustRun, Marked, Deploying, Inv, Enabled, Apply;
  }

  lemma LimitStays(s: State, l: Label)
    requires Enabled(s, l)
    ensures Apply(s, l).limit == s.limit
  {
    if l.Run? {
      StepKeepsLimit(s, l.thread, l.choice);
      hide ThreadStep, CanStep;
    }
  }

  lemma StepKeepsLimit(s: State, i: nat, choice: Choice)
    requires CanStep(s, i, choice)
    ensures ThreadStep(s, i, choice).limit == s.limit
  {
    if ActivityOf(s.threads[i]).Some? {
      ActivityKeepsLimit(s, i, choice);
      hide ActivityStep, CanReturn;
    } else {
      hide ActivityStep, CanReturn, Judge, Slots, DueNow, Expired;
    }
  }

  lemma ActivityKeepsLimit(s: State, i: nat, choice: Choice)
    requires CanStep(s, i, choice) && ActivityOf(s.threads[i]).Some?
    ensures ThreadStep(s, i, choice).limit == s.limit
  {
    hide CanReturn, AfterCall;
    assert ThreadStep(s, i, choice) == ActivityStep(s, i, ActivityOf(s.threads[i]).value, choice);
  }

  /** One round, from its walk over the task tree to its end, with the other threads doing whatever they may: the
      event loop takes out of the tree exactly the tasks of the walk that are ready, each once and in ascending id
      order, and those that hung up without a handle. Nothing inserted meanwhile is among them. */
  lemma RoundTakesOutExactlyTheReady(states: seq<State>, labels: seq<Label>, choice: Choice)
    requires IsRoundSoFar(states, labels, choice)
    requires |states[|labels|].threads| > 0 && states[|labels|].threads[0].LoopIdle?
    ensures var s, seen, out := states[0], Examined(states, labels), TakenOut(states, labels);
            var slots, replies := Slots(TasksOf(choice.order), choice.clocks, s.limit), Replies(seen);
            && |seen| <= |slots|
            && (forall k :: k in s.taskQueue.Keys ==>
                  (IsOut(out, k) <==> Readiness.Ready(s.taskQueue[k], slots, |seen|, replies, choice.clocks, s.limit)))
            && (forall j :: 0 <= j < |out| ==>
                  var k := out[j].id;
                  && k in s.taskQueue.Keys
                  && out[j] == if Judged(slots, |seen|, replies, k, HangUp) then Nulled(s.taskQueue[k]) else s.taskQueue[k])
            && (forall i, j :: 0 <= i < j < |out| ==> out[i].id < out[j].id)
  {
    RoundProgresses(states, labels, choice);
    hide IsRoundSoFar, Readiness.Ready, Judged, Deploying, Slots, Examined, TakenOut, Progress;
    AtTheEnd(states[|labels|], PlanOf(states[0], choice), Examined(states, labels), TakenOut(states, labels));
    NothingLeft(PlanOf(states[0], choice), Examined(states, labels), TakenOut(states, labels));
  }

  /** The walk meets every waiting task once, under its own id. */
  ghost predicate IsWalk(tasks: seq<Task>, waiting: map<int, Task>)
  {
    && (forall j :: 0 <= j < |tasks| ==> tasks[j].id in waiting.Keys && waiting[tasks[j].id] == tasks[j])
    && (forall k :: k in waiting.Keys ==> exists j :: 0 <= j < |tasks| && tasks[j].id == k)
    && (forall i, j :: 0 <= i < j < |tasks| ==> tasks[i].id < tasks[j].id)
  }

  lemma WalkOf(states: seq<State>, labels: seq<Label>, choice: Choice)
    requires IsRoundSoFar(states, labels, choice)
    ensures |states| == |labels| + 1 && IsWalk(TasksOf(choice.order), states[0].taskQueue)
  {
    hide Inv, ThreadStep, TasksOf, IsWalk, T.IsTraversal;
    SegmentInv(states, labels, 0);
    ScheduledWaits(states[0]);
    CollectsWalk(states[0], choice);
    WalkOfTree(choice.order, states[0].taskQueue);
  }

  lemma CollectsWalk(s: State, choice: Choice)
    requires |s.threads| > 0 && s.threads[0] == LoopCollect && CanStep(s, 0, choice)
    ensures T.IsTraversal(choice.order, s.taskQueue)
  {
  }

  lemma WalkOfTree(order: seq<(int, Task)>, waiting: map<int, Task>)
    requires T.IsTraversal(order, waiting) && forall k :: k in waiting.Keys ==> waiting[k].id == k
    ensures IsWalk(TasksOf(order), waiting)
  {
    forall k | k in waiting.Keys ensures exists j :: 0 <= j < |order| && TasksOf(order)[j].id == k {
      var j :| 0 <= j < |order| && order[j].0 == k;
      assert TasksOf(order)[j].id == k;
    }
  }

  /** The same round told by bits and clocks: which of the tasks it walked over are taken out, and as what. */
  lemma RoundGoesByTheBits(states: seq<State>, labels: seq<Label>, choice: Choice)
    requires IsRoundSoFar(states, labels, choice)
    requires |states[|labels|].threads| > 0 && states[|labels|].threads[0].LoopIdle?
    ensures var s, seen, out, tasks := states[0], Examined(states, labels), TakenOut(states, labels), TasksOf(choice.order);
            && IsWalk(tasks, s.taskQueue) && |seen| <= PolledUpTo(tasks, |tasks|, choice.clocks, s.limit)
            && (forall o :: 0 <= o < |out| ==> out[o].id in s.taskQueue.Keys)
            && (forall j :: 0 <= j < |tasks| ==>
                  (IsOut(out, tasks[j].id) <==> Goes(tasks, j, |seen|, Replies(seen), choice.clocks, s.limit)))
            && (forall o, j :: 0 <= o < |out| && 0 <= j < |tasks| && out[o].id == tasks[j].id ==>
                  out[o] == if Fails(tasks, j, |seen|, Replies(seen), choice.clocks, s.limit)
                            then tasks[j].(handle := None, accessTime := 0) else tasks[j])
  {
    hide IsRoundSoFar, Readiness.Ready, Judged, Slots, Examined, TakenOut, Goes, Fails, IsOut, TasksOf;
    RoundTakesOutExactlyTheReady(states, labels, choice);
    WalkOf(states, labels, choice);
    var s, seen, tasks := states[0], Examined(states, labels), TasksOf(choice.order);
    SlotCount(tasks, choice.clocks, s.limit);
    forall j: nat | j < |tasks| {
      ReadyInBits(tasks, j, |seen|, Replies(seen), choice.clocks, s.limit);
    }
  }

  lemma AtTheEnd(s: State, p: Plan, seen: seq<Revents>, out: seq<Task>)
    requires Progress(s, p, seen, out) && s.threads[0].LoopIdle?
    ensures |seen| <= |p.slots| && Deploying(p, seen, map[], out)
  {}

  lemma NothingLeft(p: Plan, seen: seq<Revents>, out: seq<Task>)
    ensures |seen| <= |p.slots| && Deploying(p, seen, map[], out) ==>
              && (forall k :: k in p.snapshot.Keys ==> (IsOut(out, k) <==> MustRun(p, seen, k)))
              && (forall j :: 0 <= j < |out| ==> out[j].id in p.snapshot.Keys && out[j] == Marked(p, seen, out[j].id))
              && (forall i, j :: 0 <= i < j < |out| ==> out[i].id < out[j].id)
  {
    hide MustRun, Marked;
  }
}
