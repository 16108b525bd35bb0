/** Which tasks a round lets go, told by the event bits, the revents bits and the clocks alone. */
module PollBits {
  import opened Tasks
  import opened Readiness

  /** Looking at event k of a task is enough to run it. */
  predicate Due(task: Task, k: nat, clocks: Clocks, limit: int)
    requires k < |task.events|
  {
    var event, now := task.events[k], clocks(task.id, k);
    || event.flags.alwaysOn
    || now.seconds - task.accessTime > limit
    || (event.flags.timeout && Elapsed(now.moment, event.stamp) >= event.timeout)
  }

  /** Event k of a task is left to poll. */
  predicate Polled(task: Task, k: nat, clocks: Clocks, limit: int)
    requires k < |task.events|
  {
    var event, now := task.events[k], clocks(task.id, k);
    !event.flags.alwaysOn && now.seconds - task.accessTime <= limit && !event.flags.timeout
  }

  /** How many of the first n events of a task are polled. */
  function PolledAmong(task: Task, n: nat, clocks: Clocks, limit: int): nat
    requires n <= |task.events|
  {
    if n == 0 then 0 else PolledAmong(task, n - 1, clocks, limit) + if Polled(task, n - 1, clocks, limit) then 1 else 0
  }

  /** How many events of the first n tasks are. */
  function PolledUpTo(tasks: seq<Task>, n: nat, clocks: Clocks, limit: int): nat
    requires n <= |tasks|
  {
    if n == 0 then 0
    else
      PolledUpTo(tasks, n - 1, clocks, limit) + PolledAmong(tasks[n - 1], |tasks[n - 1].events|, clocks, limit)
  }

  /** The poll slot of event k of task j: the walk counts the polled events before it. */
  function SlotAt(tasks: seq<Task>, j: nat, k: nat, clocks: Clocks, limit: int): nat
    requires j < |tasks| && k < |tasks[j].events|
  {
    PolledUpTo(tasks, j, clocks, limit) + PolledAmong(tasks[j], k, clocks, limit)
  }

  predicate Answered(flags: Flags, got: Revents) {
    (flags.readable && got.readable) || (flags.writable && got.writable)
  }

  /** Task j of the walk goes: it has no events, one of them is due, or the slot of one of them, among the first n,
    * answers what was asked or fails. */
  predicate Goes(tasks: seq<Task>, j: nat, n: nat, revents: nat -> Revents, clocks: Clocks, limit: int)
    requires j < |tasks|
  {
    var events := tasks[j].events;
    || events == []
    || (exists k :: 0 <= k < |events| && Due(tasks[j], k, clocks, limit))
    || exists k :: 0 <= k < |events| && Polled(tasks[j], k, clocks, limit)
         && var i := SlotAt(tasks, j, k, clocks, limit);
            i < n && (Answered(events[k].flags, revents(i)) || revents(i).error || revents(i).hangUp)
  }

  /** Task j loses its handle: some slot of it fails without an answer. */
  predicate Fails(tasks: seq<Task>, j: nat, n: nat, revents: nat -> Revents, clocks: Clocks, limit: int)
    requires j < |tasks|
  {
    var events := tasks[j].events;
    exists k :: 0 <= k < |events| && Polled(tasks[j], k, clocks, limit)
      && var i := SlotAt(tasks, j, k, clocks, limit);
         i < n && !Answered(events[k].flags, revents(i)) && (revents(i).error || revents(i).hangUp)
  }

  // ---- The slots ----------------------------------------------------------------------------

  lemma {:induction false} SlotsOfTask(task: Task, n: nat, clocks: Clocks, limit: int)
    requires n <= |task.events|
    ensures |SlotsOf(task, n, clocks, limit)| == PolledAmong(task, n, clocks, limit)
  {
    if n > 0 {
      SlotsOfTask(task, n - 1, clocks, limit);
    }
  }

  lemma {:induction false} SlotOfEvent(task: Task, n: nat, k: nat, clocks: Clocks, limit: int)
    requires k < n <= |task.events| && Polled(task, k, clocks, limit)
    ensures var i := PolledAmong(task, k, clocks, limit);
            var slots := SlotsOf(task, n, clocks, limit);
            i < |slots| && slots[i] == Slot(task.id, task.events[k])
  {
    SlotsOfTask(task, n - 1, clocks, limit);
    if k < n - 1 {
      SlotOfEvent(task, n - 1, k, clocks, limit);
    }
  }

  lemma {:induction false} EventOfSlot(task: Task, n: nat, i: nat, clocks: Clocks, limit: int) returns (k: nat)
    requires n <= |task.events| && i < |SlotsOf(task, n, clocks, limit)|
    ensures k < n && Polled(task, k, clocks, limit) && PolledAmong(task, k, clocks, limit) == i
    ensures SlotsOf(task, n, clocks, limit)[i] == Slot(task.id, task.events[k])
  {
    SlotsOfTask(task, n - 1, clocks, limit);
    if i < |SlotsOf(task, n - 1, clocks, limit)| {
      k := EventOfSlot(task, n - 1, i, clocks, limit);
    } else {
      k := n - 1;
    }
  }

  lemma {:induction false} SlotsOfTasks(tasks: seq<Task>, n: nat, clocks: Clocks, limit: int)
    requires n <= |tasks|
    ensures |Slots(tasks[..n], clocks, limit)| == PolledUpTo(tasks, n, clocks, limit)
  {
    if n > 0 {
      SlotsOfTasks(tasks, n - 1, clocks, limit);
      SlotsOfOneMore(tasks, n - 1, clocks, limit);
      SlotsOfTask(tasks[n - 1], |tasks[n - 1].events|, clocks, limit);
    }
  }

  lemma {:induction false} SlotIsAt(tasks: seq<Task>, n: nat, j: nat, k: nat, clocks: Clocks, limit: int)
    requires j < n <= |tasks| && k < |tasks[j].events| && Polled(tasks[j], k, clocks, limit)
    ensures var i, slots := SlotAt(tasks, j, k, clocks, limit), Slots(tasks[..n], clocks, limit);
            i < |slots| && slots[i] == Slot(tasks[j].id, tasks[j].events[k])
  {
    hide Polled, Slots, SlotsOf, PolledUpTo, PolledAmong;
    SlotsOfOneMore(tasks, n - 1, clocks, limit);
    if j < n - 1 {
      SlotIsAt(tasks, n - 1, j, k, clocks, limit);
    } else {
      SlotsOfTasks(tasks, j, clocks, limit);
      SlotOfEvent(tasks[j], |tasks[j].events|, k, clocks, limit);
    }
  }

  lemma {:induction false} SlotComesFrom(tasks: seq<Task>, n: nat, i: nat, clocks: Clocks, limit: int) returns (j: nat, k: nat)
    requires n <= |tasks| && i < |Slots(tasks[..n], clocks, limit)|
    ensures j < n && k < |tasks[j].events| && Polled(tasks[j], k, clocks, limit)
    ensures SlotAt(tasks, j, k, clocks, limit) == i
    ensures Slots(tasks[..n], clocks, limit)[i] == Slot(tasks[j].id, tasks[j].events[k])
  {
    SlotsOfOneMore(tasks, n - 1, clocks, limit);
    SlotsOfTasks(tasks, n - 1, clocks, limit);
    var before := |Slots(tasks[..n - 1], clocks, limit)|;
    if i < before {
      j, k := SlotComesFrom(tasks, n - 1, i, clocks, limit);
    } else {
      j := n - 1;
      k := EventOfSlot(tasks[j], |tasks[j].events|, i - before, clocks, limit);
    }
  }

  /** There are as many slots as polled events. */
  lemma SlotCount(tasks: seq<Task>, clocks: Clocks, limit: int)
    ensures |Slots(tasks, clocks, limit)| == PolledUpTo(tasks, |tasks|, clocks, limit)
  {
    assert tasks[..|tasks|] == tasks;
    SlotsOfTasks(tasks, |tasks|, clocks, limit);
  }

  // ---- Ready in bits ------------------------------------------------------------------------

  lemma LookInBits(task: Task, k: nat, clocks: Clocks, limit: int)
    requires k < |task.events|
    ensures LookAtNth(task, k, clocks, limit) == RunNow <==> Due(task, k, clocks, limit)
    ensures LookAtNth(task, k, clocks, limit) == Poll <==> Polled(task, k, clocks, limit)
  {
  }

  lemma VerdictInBits(flags: Flags, got: Revents)
    ensures Judge(flags, got) == Fire <==> Answered(flags, got)
    ensures Judge(flags, got) == HangUp <==> !Answered(flags, got) && (got.error || got.hangUp)
  {
  }

  /** Task j was judged so if and only if one of its events has a slot that was. */
  lemma JudgedInBits(tasks: seq<Task>, j: nat, n: nat, revents: nat -> Revents, v: Verdict, clocks: Clocks, limit: int)
    requires j < |tasks| && n <= |Slots(tasks, clocks, limit)|
    requires forall i :: 0 <= i < |tasks| && tasks[i].id == tasks[j].id ==> i == j
    ensures Judged(Slots(tasks, clocks, limit), n, revents, tasks[j].id, v)
       <==> exists k :: 0 <= k < |tasks[j].events| && Polled(tasks[j], k, clocks, limit)
              && var i := SlotAt(tasks, j, k, clocks, limit);
                 i < n && Judge(tasks[j].events[k].flags, revents(i)) == v
  {
    hide Slots, SlotAt, Polled, Judge;
    assert tasks[..|tasks|] == tasks;
    var slots := Slots(tasks, clocks, limit);
    if Judged(slots, n, revents, tasks[j].id, v) {
      var i: nat :| i < n && slots[i].id == tasks[j].id && Judge(slots[i].event.flags, revents(i)) == v;
      var u, k := SlotComesFrom(tasks, |tasks|, i, clocks, limit);
    }
    forall k: nat | k < |tasks[j].events| && Polled(tasks[j], k, clocks, limit)
                    && SlotAt(tasks, j, k, clocks, limit) < n
                    && Judge(tasks[j].events[k].flags, revents(SlotAt(tasks, j, k, clocks, limit))) == v
      ensures Judged(slots, n, revents, tasks[j].id, v)
    {
      SlotIsAt(tasks, |tasks|, j, k, clocks, limit);
    }
  }

  /** Ready means that the task goes, and judged a hang-up that it fails. */
  lemma ReadyInBits(tasks: seq<Task>, j: nat, n: nat, revents: nat -> Revents, clocks: Clocks, limit: int)
    requires j < |tasks| && n <= |Slots(tasks, clocks, limit)|
    requires forall i :: 0 <= i < |tasks| && tasks[i].id == tasks[j].id ==> i == j
    ensures Ready(tasks[j], Slots(tasks, clocks, limit), n, revents, clocks, limit)
       <==> Goes(tasks, j, n, revents, clocks, limit)
    ensures Judged(Slots(tasks, clocks, limit), n, revents, tasks[j].id, HangUp)
       <==> Fails(tasks, j, n, revents, clocks, limit)
  {
    hide Judge, LookAtNth, Slots, SlotAt, Polled, Due, Answered, Judged;
    JudgedInBits(tasks, j, n, revents, Fire, clocks, limit);
    JudgedInBits(tasks, j, n, revents, HangUp, clocks, limit);
    forall k: nat | k < |tasks[j].events| { LookInBits(tasks[j], k, clocks, limit); }
    forall flags, got { VerdictInBits(flags, got); }
  }
}
