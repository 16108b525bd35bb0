/** One round of the event loop (antd_scheduler_wait): which waiting tasks it deploys, and in
    which order. The round works on the shapes of the trees of lib/bst.c, as SearchTree has them,
    and no other thread touches the task tree; Rounds says the same of a round that adders and
    workers run through. */
module Readiness {
  import opened Tasks

  /** What the clocks say while one event is looked at: time(NULL) and gettimeofday. */
  datatype Reading = Reading(seconds: int, moment: Time)
  type Clocks = (int, nat) -> Reading

  /** The revents bits the loop tests. */
  datatype Revents = Revents(readable: bool, writable: bool, error: bool, hangUp: bool)

  datatype Slot = Slot(id: int, event: Event)

  datatype Look = RunNow | NotYet | Poll
  datatype Verdict = Fire | HangUp | Quiet

  /** C division: the quotient is truncated toward zero. */
  function TruncatedQuotient(n: int, d: int): int
    requires d > 0
  {
    if n >= 0 then n / d else -((-n) / d)
  }

  /** Conversion of a long to a 32-bit int. */
  function ToInt32(n: int): (r: int)
    ensures -0x8000_0000 <= r < 0x8000_0000
  {
    (n + 0x8000_0000) % 0x1_0000_0000 - 0x8000_0000
  }

  /** The time since an event was bound, in milliseconds. */
  function Elapsed(now: Time, stamp: Time): int
  {
    ToInt32(TruncatedQuotient((now.sec - stamp.sec) * 1000000 + now.usec - stamp.usec, 1000))
  }

  /** antd_scheduler_validate_data answers 0. */
  predicate Expired(task: Task, seconds: int, limit: int)
  {
    seconds - task.accessTime > limit
  }

  function LookAt(task: Task, event: Event, reading: Reading, limit: int): Look
  {
    if event.flags.alwaysOn || Expired(task, reading.seconds, limit) then RunNow
    else if event.flags.timeout then
      if Elapsed(reading.moment, event.stamp) >= event.timeout then RunNow else NotYet
    else Poll
  }

  function LookAtNth(task: Task, k: nat, clocks: Clocks, limit: int): Look
    requires k < |task.events|
  {
    LookAt(task, task.events[k], clocks(task.id, k), limit)
  }

  /** Due without polling: bound to no event, or one of its events says so. */
  predicate RunsNow(task: Task, clocks: Clocks, limit: int)
  {
    task.events == [] || exists k :: 0 <= k < |task.events| && LookAtNth(task, k, clocks, limit) == RunNow
  }

  /** The poll slots of a task's first `n` events. */
  function SlotsOf(task: Task, n: nat, clocks: Clocks, limit: int): (slots: seq<Slot>)
    requires n <= |task.events|
    ensures forall i :: 0 <= i < |slots| ==> slots[i].id == task.id
  {
    if n == 0 then []
    else
      SlotsOf(task, n - 1, clocks, limit)
      + if LookAtNth(task, n - 1, clocks, limit) == Poll then [Slot(task.id, task.events[n - 1])] else []
  }

  /** All poll slots of a round; the position in the sequence is the key in the poll list. */
  function Slots(tasks: seq<Task>, clocks: Clocks, limit: int): seq<Slot>
  {
    if tasks == [] then []
    else
      var last := tasks[|tasks| - 1];
      Slots(tasks[..|tasks| - 1], clocks, limit) + SlotsOf(last, |last.events|, clocks, limit)
  }

  lemma SlotsOfOneMore(tasks: seq<Task>, n: nat, clocks: Clocks, limit: int)
    requires n < |tasks|
    ensures Slots(tasks[..n + 1], clocks, limit)
         == Slots(tasks[..n], clocks, limit) + SlotsOf(tasks[n], |tasks[n].events|, clocks, limit)
  {
    assert tasks[..n + 1][..n] == tasks[..n];
  }

  /** Every slot of a round belongs to one of its tasks. */
  lemma {:induction false} SlotOwner(tasks: seq<Task>, clocks: Clocks, limit: int, i: nat)
    requires i < |Slots(tasks, clocks, limit)|
    ensures exists j :: 0 <= j < |tasks| && tasks[j].id == Slots(tasks, clocks, limit)[i].id
  {
    var init := tasks[..|tasks| - 1];
    if i < |Slots(init, clocks, limit)| {
      SlotOwner(init, clocks, limit, i);
      var j :| 0 <= j < |init| && init[j].id == Slots(init, clocks, limit)[i].id;
      assert tasks[j].id == Slots(tasks, clocks, limit)[i].id;
    } else {
      assert tasks[|tasks| - 1].id == Slots(tasks, clocks, limit)[i].id;
    }
  }

  function Judge(flags: Flags, revents: Revents): Verdict
  {
    if (flags.readable && revents.readable) || (flags.writable && revents.writable) then Fire
    else if revents.error || revents.hangUp then HangUp
    else Quiet
  }

  /** What the loop does to a task whose descriptor hung up. */
  function Nulled(task: Task): Task
  {
    task.(handle := None, accessTime := 0)
  }

  /** One of the first `n` slots belongs to the task and was judged `v`. */
  predicate Judged(slots: seq<Slot>, n: int, revents: nat -> Revents, id: int, v: Verdict)
    requires n <= |slots|
  {
    exists i :: 0 <= i < n && slots[i].id == id && Judge(slots[i].event.flags, revents(i)) == v
  }

  /** The task must be deployed, given that the revents of the first `n` slots are examined. */
  predicate Ready(task: Task, slots: seq<Slot>, n: int, revents: nat -> Revents, clocks: Clocks, limit: int)
    requires n <= |slots|
  {
    || RunsNow(task, clocks, limit)
    || Judged(slots, n, revents, task.id, Fire)
    || Judged(slots, n, revents, task.id, HangUp)
  }
}

module EventRound {
  import opened Tasks
  import opened Readiness
  import opened PollBits
  import opened SearchTree

  /** A task in memory, shared by the task tree, the schedule and the poll list. Its id and its
      events never change; its handle and access time do. */
  class TaskCell {
    const id: int
    var task: Task

    constructor (task: Task)
      ensures this.id == task.id && this.task == task
    {
      this.id := task.id;
      this.task := task;
    }
  }

  datatype PollItem = PollItem(cell: TaskCell, event: Event)

  /** A pollfd: the descriptor and the interest bits. */
  datatype PollFd = PollFd(fd: int, readable: bool, writable: bool)

  function Request(event: Event): PollFd
  {
    PollFd(event.fd, event.flags.readable, event.flags.writable)
  }

  ghost predicate Entered<D>(t: Tree<D>, m: map<int, D>)
  {
    Ordered(t) && Entries(t) == m
  }

  ghost function Numbered<D>(items: seq<D>): map<int, D>
  {
    map i | 0 <= i < |items| :: items[i]
  }

  /** The items are the polled events of these slots. */
  ghost predicate Fills(items: seq<PollItem>, slots: seq<Slot>)
  {
    && |items| == |slots|
    && forall i :: 0 <= i < |items| ==> slots[i] == Slot(items[i].cell.id, items[i].event)
  }

  /** task_event_collect, for one task of the tree. */
  method TaskEventCollect(cell: TaskCell, task: Task, clocks: Clocks, limit: int,
                          schedule: Tree<TaskCell>, polls: Tree<PollItem>, pollSize: nat,
                          ghost due: map<int, TaskCell>, ghost items: seq<PollItem>)
    returns (schedule': Tree<TaskCell>, polls': Tree<PollItem>, pollSize': nat, ghost items': seq<PollItem>)
    requires task.id == cell.id
    requires Entered(schedule, due) && Entered(polls, Numbered(items)) && pollSize == |items|
    ensures Entered(schedule', if RunsNow(task, clocks, limit) then due[cell.id := cell] else due)
    ensures Entered(polls', Numbered(items')) && pollSize' == |items'|
    ensures items <= items' && forall i :: |items| <= i < |items'| ==> items'[i].cell == cell
    ensures Fills(items'[|items|..], SlotsOf(task, |task.events|, clocks, limit))
  {
    schedule', polls', pollSize', items' := schedule, polls, pollSize, items;
    if task.events == [] {
      InsertRefines(schedule, cell.id, cell);
      schedule' := Insert(schedule, cell.id, cell);
      return;
    }
    var k := 0;
    ghost var found := false;
    while k < |task.events|
      invariant k <= |task.events|
      invariant found == exists j :: 0 <= j < k && LookAtNth(task, j, clocks, limit) == RunNow
      invariant Entered(schedule', if found then due[cell.id := cell] else due)
      invariant Entered(polls', Numbered(items')) && pollSize' == |items'|
      invariant items <= items' && forall i :: |items| <= i < |items'| ==> items'[i].cell == cell
      invariant Fills(items'[|items|..], SlotsOf(task, k, clocks, limit))
    {
      match LookAtNth(task, k, clocks, limit) {
        case RunNow =>
          InsertRefines(schedule', cell.id, cell);
          schedule' := Insert(schedule', cell.id, cell);
          found := true;
        case NotYet =>
        case Poll =>
          var item := PollItem(cell, task.events[k]);
          InsertRefines(polls', pollSize', item);
          polls' := Insert(polls', pollSize', item);
          AppendNumbered(items', item);
          assert (items' + [item])[|items|..] == items'[|items|..] + [item];
          items' := items' + [item];
          pollSize' := pollSize' + 1;
      }
      k := k + 1;
    }
  }

  lemma AppendNumbered<D>(items: seq<D>, item: D)
    ensures Numbered(items + [item]) == Numbered(items)[|items| := item]
  {}

  lemma FillsAppend(items: seq<PollItem>, items': seq<PollItem>, slots: seq<Slot>, slots': seq<Slot>)
    requires Fills(items, slots) && items <= items' && slots <= slots'
    requires Fills(items'[|items|..], slots'[|slots|..])
    ensures Fills(items', slots')
  {
    forall i | 0 <= i < |items'| ensures slots'[i] == Slot(items'[i].cell.id, items'[i].event) {
      if i >= |items| {
        assert items'[|items|..][i - |items|] == items'[i];
        assert slots'[|slots|..][i - |items|] == slots'[i];
      }
    }
  }

  /** `due` binds ids to the cells of the task tree with those ids. */
  ghost predicate Within<D>(due: map<int, D>, all: map<int, D>)
  {
    forall k :: k in due.Keys ==> k in all.Keys && due[k] == all[k]
  }

  ghost predicate ItemsWithin(items: seq<PollItem>, all: map<int, TaskCell>)
  {
    forall i :: 0 <= i < |items| ==> items[i].cell.id in all.Keys && all[items[i].cell.id] == items[i].cell
  }

  /** The schedule after walking over the first `n` tasks. */
  ghost predicate DueSoFar<D>(tasks: seq<Task>, n: int, clocks: Clocks, limit: int,
                              due: map<int, D>, all: map<int, D>)
  {
    && Within(due, all)
    && forall i :: 0 <= i < |tasks| ==>
         (tasks[i].id in due.Keys <==> i < n && RunsNow(tasks[i], clocks, limit))
  }

  lemma DueOneMore<D>(tasks: seq<Task>, n: nat, clocks: Clocks, limit: int,
                      due: map<int, D>, all: map<int, D>)
    requires DueSoFar(tasks, n, clocks, limit, due, all)
    requires n < |tasks| && tasks[n].id in all.Keys
    requires forall i, j :: 0 <= i < j < |tasks| ==> tasks[i].id < tasks[j].id
    ensures var id := tasks[n].id;
            DueSoFar(tasks, n + 1, clocks, limit,
                     if RunsNow(tasks[n], clocks, limit) then due[id := all[id]] else due, all)
  {}

  lemma ItemsOneMore(items: seq<PollItem>, items': seq<PollItem>, cell: TaskCell, all: map<int, TaskCell>)
    requires ItemsWithin(items, all) && cell.id in all.Keys && all[cell.id] == cell
    requires items <= items' && forall i :: |items| <= i < |items'| ==> items'[i].cell == cell
    ensures ItemsWithin(items', all)
  {}

  /** The walk over the task tree that opens a round; `tasks` is what the visited cells hold. */
  method Collect(visits: seq<(int, TaskCell)>, tasks: seq<Task>, clocks: Clocks, limit: int,
                 ghost all: map<int, TaskCell>)
    returns (schedule: Tree<TaskCell>, polls: Tree<PollItem>, pollSize: nat,
             ghost due: map<int, TaskCell>, ghost items: seq<PollItem>)
    requires IsTraversal(visits, all) && |tasks| == |visits|
    requires forall i :: 0 <= i < |visits| ==> visits[i].0 == visits[i].1.id == tasks[i].id
    ensures Entered(schedule, due) && Entered(polls, Numbered(items)) && pollSize == |items|
    ensures DueSoFar(tasks, |tasks|, clocks, limit, due, all)
    ensures ItemsWithin(items, all) && Fills(items, Slots(tasks, clocks, limit))
    ensures pollSize == |Slots(tasks, clocks, limit)|
    ensures forall i :: 0 <= i < |tasks| ==> (Find(schedule, tasks[i].id).Some? <==> RunsNow(tasks[i], clocks, limit))
  {
    ghost var slots: seq<Slot> := [];
    schedule, polls, pollSize, due, items := Leaf, Leaf, 0, map[], [];
    var n := 0;
    while n < |visits|
      invariant n <= |visits|
      invariant Entered(schedule, due) && Entered(polls, Numbered(items)) && pollSize == |items|
      invariant DueSoFar(tasks, n, clocks, limit, due, all)
      invariant ItemsWithin(items, all) && Fills(items, slots)
      invariant slots == Slots(tasks[..n], clocks, limit)
    {
      var cell := visits[n].1;
      ghost var before := items;
      schedule, polls, pollSize, items :=
        TaskEventCollect(cell, tasks[n], clocks, limit, schedule, polls, pollSize, due, items);
      DueOneMore(tasks, n, clocks, limit, due, all);
      ItemsOneMore(before, items, cell, all);
      SlotsOfOneMore(tasks, n, clocks, limit);
      ghost var slots' := Slots(tasks[..n + 1], clocks, limit);
      FillsAppend(before, items, slots, slots');
      slots := slots';
      due := if RunsNow(tasks[n], clocks, limit) then due[cell.id := cell] else due;
      n := n + 1;
    }
    assert tasks[..n] == tasks;
    forall i | 0 <= i < |tasks|
      ensures Find(schedule, tasks[i].id).Some? <==> RunsNow(tasks[i], clocks, limit)
    {
      FindRefines(schedule, tasks[i].id);
    }
  }

  /** The poll keys are exactly 0, 1, ..., and the walk meets the items in the order they were added. */
  lemma NumberedVisits<D>(polls: Tree<D>, items: seq<D>)
    requires Entered(polls, Numbered(items))
    ensures |Visits(polls)| == |items|
    ensures forall i :: 0 <= i < |items| ==> Visits(polls)[i] == (i, items[i])
  {
    var pairs := seq(|items|, i requires 0 <= i < |items| => (i, items[i]));
    forall k | k in Numbered(items).Keys ensures exists i :: 0 <= i < |pairs| && pairs[i].0 == k {
      assert pairs[k].0 == k;
    }
    assert IsTraversal(pairs, Numbered(items));
    VisitsTraverse(polls);
    TraversalIsUnique(Visits(polls), pairs, Numbered(items));
  }

  /** task_polls_collect over the whole poll list: slot i asks for what the i-th polled event wants. */
  method PollsCollect(polls: Tree<PollItem>, pollSize: nat, ghost items: seq<PollItem>)
    returns (pfds: array<PollFd>)
    requires Entered(polls, Numbered(items)) && pollSize == |items|
    ensures fresh(pfds) && pfds.Length == pollSize
    ensures forall i :: 0 <= i < pollSize ==> pfds[i] == Request(items[i].event)
  {
    pfds := new PollFd[pollSize](_ => PollFd(0, false, false));
    var visits := Visits(polls);
    NumberedVisits(polls, items);
    var n := 0;
    while n < |visits|
      invariant n <= |visits|
      invariant forall j :: 0 <= j < n ==> pfds[j] == Request(items[j].event)
      invariant forall j :: n <= j < pollSize ==> pfds[j] == PollFd(0, false, false)
    {
      var (i, item) := visits[n];
      pfds[i] := PollFd(item.event.fd, pfds[i].readable, pfds[i].writable);
      if item.event.flags.readable {
        pfds[i] := PollFd(pfds[i].fd, true, pfds[i].writable);
      }
      if item.event.flags.writable {
        pfds[i] := PollFd(pfds[i].fd, pfds[i].readable, true);
      }
      n := n + 1;
    }
  }

  ghost predicate Keyed(all: map<int, TaskCell>)
  {
    forall k :: k in all.Keys ==> all[k].id == k
  }

  ghost predicate Holds(all: map<int, TaskCell>, before: map<int, Task>)
    reads all.Values
  {
    before.Keys == all.Keys && forall k :: k in all.Keys ==> all[k].task == before[k]
  }

  /** A task some of whose first `n` slots hung up has lost its handle and its access time. */
  ghost predicate HungUpNulled(all: map<int, TaskCell>, before: map<int, Task>,
                              slots: seq<Slot>, n: nat, revents: nat -> Revents)
    requires n <= |slots|
    reads all.Values
  {
    && before.Keys == all.Keys
    && forall k :: k in all.Keys ==>
         all[k].task == if Judged(slots, n, revents, k, HangUp) then Nulled(before[k]) else before[k]
  }

  /** The tasks once the first `n` slots are examined. */
  ghost function TasksSeen(before: map<int, Task>, slots: seq<Slot>, n: nat, revents: nat -> Revents): map<int, Task>
    requires n <= |slots|
  {
    map k | k in before.Keys :: if Judged(slots, n, revents, k, HangUp) then Nulled(before[k]) else before[k]
  }

  lemma NothingSeen(before: map<int, Task>, slots: seq<Slot>, revents: nat -> Revents)
    ensures TasksSeen(before, slots, 0, revents) == before
  {
  }

  lemma OneMoreSeen(before: map<int, Task>, slots: seq<Slot>, n: nat, revents: nat -> Revents)
    requires n < |slots| && slots[n].id in before.Keys
    ensures var id, seen := slots[n].id, TasksSeen(before, slots, n, revents);
            TasksSeen(before, slots, n + 1, revents)
            == if Judge(slots[n].event.flags, revents(n)) == HangUp then seen[id := Nulled(seen[id])] else seen
  {
    hide Judge, Judged;
    forall k { JudgedOneMore(slots, n, revents, k, HangUp); }
  }

  lemma NulledIffSeen(all: map<int, TaskCell>, before: map<int, Task>, slots: seq<Slot>, n: nat, revents: nat -> Revents)
    requires n <= |slots|
    ensures Holds(all, TasksSeen(before, slots, n, revents)) <==> HungUpNulled(all, before, slots, n, revents)
  {
    hide Judged;
  }

  /** The schedule once the first `n` slots are examined. */
  ghost predicate FiredSoFar<D>(all: map<int, D>, due: map<int, D>, due': map<int, D>,
                                slots: seq<Slot>, n: nat, revents: nat -> Revents)
    requires n <= |slots|
  {
    && Within(due', all)
    && forall k :: k in all.Keys ==>
         (k in due'.Keys <==>
            k in due.Keys || Judged(slots, n, revents, k, Fire) || Judged(slots, n, revents, k, HangUp))
  }

  lemma JudgedOneMore(slots: seq<Slot>, n: nat, revents: nat -> Revents, id: int, v: Verdict)
    requires n < |slots|
    ensures Judged(slots, n + 1, revents, id, v) <==>
              || Judged(slots, n, revents, id, v)
              || (slots[n].id == id && Judge(slots[n].event.flags, revents(n)) == v)
  {}

  lemma FiredOneMore<D>(all: map<int, D>, due: map<int, D>, due': map<int, D>,
                        slots: seq<Slot>, n: nat, revents: nat -> Revents)
    requires n < |slots| && slots[n].id in all.Keys
    requires FiredSoFar(all, due, due', slots, n, revents)
    ensures var id := slots[n].id;
            var due'' := if Judge(slots[n].event.flags, revents(n)) == Quiet then due' else due'[id := all[id]];
            FiredSoFar(all, due, due'', slots, n + 1, revents)
  {
    forall k, v { JudgedOneMore(slots, n, revents, k, v); }
  }

  lemma NothingFired<D>(all: map<int, D>, due: map<int, D>, slots: seq<Slot>, revents: nat -> Revents)
    ensures Within(due, all) ==> FiredSoFar(all, due, due, slots, 0, revents)
  {}

  lemma FoundIfEntered<D>(t: Tree<D>, m: map<int, D>, k: int)
    requires Entered(t, m)
    ensures Find(t, k) == if k in m.Keys then Some(m[k]) else None
  {
    FindRefines(t, k);
  }

  lemma OneMoreEntered<D>(t: Tree<D>, m: map<int, D>, k: int, d: D)
    requires Entered(t, m)
    ensures Entered(Insert(t, k, d), m[k := d])
  {
    InsertRefines(t, k, d);
  }

  lemma PollEntry(polls: Tree<PollItem>, items: seq<PollItem>, slots: seq<Slot>, all: map<int, TaskCell>, i: nat)
    requires Entered(polls, Numbered(items)) && ItemsWithin(items, all) && Fills(items, slots) && i < |items|
    ensures |items| == |slots| && Find(polls, i) == Some(items[i])
    ensures var cell := items[i].cell;
            && slots[i] == Slot(cell.id, items[i].event)
            && cell.id in all.Keys && all[cell.id] == cell
  {
    FoundIfEntered(polls, Numbered(items), i);
  }

  lemma SeenAsBefore(all: map<int, TaskCell>, before: map<int, Task>)
    requires Holds(all, before)
    ensures all.Keys == before.Keys
  {
  }

  lemma AsManySlots(items: seq<PollItem>, slots: seq<Slot>)
    requires Fills(items, slots)
    ensures |items| == |slots|
  {
  }

  /** One poll result: the task fires, loses its handle, or stays as it is. */
  method DetectOne(taskQueue: Tree<TaskCell>, schedule: Tree<TaskCell>, item: PollItem, got: Revents,
                   ghost all: map<int, TaskCell>, ghost seen: map<int, Task>, ghost due: map<int, TaskCell>)
    returns (schedule': Tree<TaskCell>, ghost due': map<int, TaskCell>)
    requires Entered(taskQueue, all) && Keyed(all) && Holds(all, seen) && Entered(schedule, due)
    requires item.cell.id in all.Keys && all[item.cell.id] == item.cell
    modifies item.cell
    ensures var id, verdict := item.cell.id, Judge(item.event.flags, got);
            && due' == (if verdict == Quiet then due else due[id := item.cell])
            && Entered(schedule', due')
            && Holds(all, if verdict == HangUp then seen[id := Nulled(seen[id])] else seen)
  {
    hide Judge, Entered, Nulled;
    var cell := item.cell;
    schedule', due' := schedule, due;
    OneMoreEntered(schedule, due, cell.id, cell);
    match Judge(item.event.flags, got) {
      case Fire =>
        FoundIfEntered(taskQueue, all, cell.id);
        var waiting := Find(taskQueue, cell.id);
        if waiting.Some? {
          schedule' := Insert(schedule, cell.id, cell);
          due' := due[cell.id := cell];
        }
      case HangUp =>
        cell.task := Nulled(cell.task);
        schedule' := Insert(schedule, cell.id, cell);
        due' := due[cell.id := cell];
      case Quiet =>
    }
  }

  /** The pass over the poll results. */
  method Detect(taskQueue: Tree<TaskCell>, schedule: Tree<TaskCell>, polls: Tree<PollItem>, pollSize: nat,
                revents: nat -> Revents, ghost all: map<int, TaskCell>, ghost before: map<int, Task>,
                ghost due: map<int, TaskCell>, ghost items: seq<PollItem>, ghost slots: seq<Slot>)
    returns (schedule': Tree<TaskCell>, ghost due': map<int, TaskCell>)
    requires Entered(taskQueue, all) && Keyed(all) && Holds(all, before)
    requires Entered(schedule, due) && Within(due, all)
    requires Entered(polls, Numbered(items)) && pollSize == |items|
    requires ItemsWithin(items, all) && Fills(items, slots)
    modifies all.Values
    ensures Entered(schedule', due') && FiredSoFar(all, due, due', slots, pollSize, revents)
    ensures HungUpNulled(all, before, slots, pollSize, revents)
  {
    hide TasksSeen, FiredSoFar, Judge, Insert, Find, Entered, Fills, ItemsWithin, Numbered, Judged, Holds;
    hide Keyed, Within, HungUpNulled, Nulled;
    AsManySlots(items, slots);
    SeenAsBefore(all, before);
    NothingSeen(before, slots, revents);
    NothingFired(all, due, slots, revents);
    schedule', due' := schedule, due;
    var i := 0;
    while i < pollSize
      invariant i <= pollSize
      invariant Entered(schedule', due') && FiredSoFar(all, due, due', slots, i, revents)
      invariant Holds(all, TasksSeen(before, slots, i, revents))
    {
      PollEntry(polls, items, slots, all, i);
      OneMoreSeen(before, slots, i, revents);
      FiredOneMore(all, due, due', slots, i, revents);
      var node := Find(polls, i);
      if node.Some? {
        schedule', due' := DetectOne(taskQueue, schedule', node.value, revents(i), all,
                                     TasksSeen(before, slots, i, revents), due');
      }
      i := i + 1;
    }
    NulledIffSeen(all, before, slots, pollSize, revents);
  }

  ghost function Ids(cells: seq<TaskCell>): set<int>
  {
    set cell | cell in cells :: cell.id
  }

  lemma OneMoreId(cells: seq<TaskCell>, cell: TaskCell)
    ensures Ids(cells + [cell]) == Ids(cells) + {cell.id}
  {
    assert forall c :: c in cells + [cell] <==> c in cells || c == cell;
  }

  lemma NothingTaken<D>(all: map<int, D>)
    ensures all - Ids([]) == all
  {
  }

  lemma OneTaken(t: Tree<TaskCell>, all: map<int, TaskCell>, cells: seq<TaskCell>, cell: TaskCell)
    requires Entered(t, all - Ids(cells))
    ensures Entered(Delete(t, cell.id), all - Ids(cells + [cell]))
  {
    DeleteRefines(t, cell.id);
    OneMoreId(cells, cell);
    assert all - (Ids(cells) + {cell.id}) == (all - Ids(cells)) - {cell.id};
  }

  /** The schedule's walk, each task under its own id. */
  lemma Scheduled(schedule: Tree<TaskCell>, due: map<int, TaskCell>, all: map<int, TaskCell>)
    requires Keyed(all) && Entered(schedule, due) && Within(due, all)
    ensures IsTraversal(Visits(schedule), due)
    ensures forall v <- Visits(schedule) :: v.0 == v.1.id
  {
    VisitsTraverse(schedule);
  }

  lemma AllTaken(visits: seq<(int, TaskCell)>, due: map<int, TaskCell>, cells: seq<TaskCell>)
    requires IsTraversal(visits, due) && |cells| == |visits|
    requires forall j :: 0 <= j < |cells| ==> cells[j] == visits[j].1 && visits[j].0 == visits[j].1.id
    ensures Ids(cells) == due.Keys
  {
    forall k | k in due.Keys ensures k in Ids(cells) {
      var j :| 0 <= j < |visits| && visits[j].0 == k;
      assert cells[j] in cells;
    }
  }

  /** antd_deploy_task over the schedule: each task leaves the task tree, in ascending id order. */
  method Deploy(taskQueue: Tree<TaskCell>, schedule: Tree<TaskCell>,
                ghost all: map<int, TaskCell>, ghost due: map<int, TaskCell>)
    returns (taskQueue': Tree<TaskCell>, deployed: seq<TaskCell>)
    requires Entered(taskQueue, all) && Keyed(all)
    requires Entered(schedule, due) && Within(due, all)
    ensures Entered(taskQueue', all - due.Keys)
    ensures forall j :: 0 <= j < |deployed| ==> deployed[j].id in due.Keys && due[deployed[j].id] == deployed[j]
    ensures forall i, j :: 0 <= i < j < |deployed| ==> deployed[i].id < deployed[j].id
    ensures Ids(deployed) == due.Keys
  {
    hide Entered, Keyed, Within, Visits;
    var visits := Visits(schedule);
    Scheduled(schedule, due, all);
    NothingTaken(all);
    taskQueue', deployed := taskQueue, [];
    var n := 0;
    while n < |visits|
      invariant n <= |visits| && n == |deployed|
      invariant forall j :: 0 <= j < n ==> deployed[j] == visits[j].1 && visits[j].0 == visits[j].1.id
      invariant Entered(taskQueue', all - Ids(deployed))
    {
      var cell := visits[n].1;
      OneTaken(taskQueue', all, deployed, cell);
      taskQueue' := Delete(taskQueue', cell.id);
      deployed := deployed + [cell];
      n := n + 1;
    }
    AllTaken(visits, due, deployed);
  }

  /** What the visited cells hold. */
  function TasksIn(visits: seq<(int, TaskCell)>): (tasks: seq<Task>)
    reads set v | v in visits :: v.1
    ensures |tasks| == |visits| && forall i :: 0 <= i < |visits| ==> tasks[i] == visits[i].1.task
  {
    if visits == [] then [] else [visits[0].1.task] + TasksIn(visits[1..])
  }

  /** How many slots are examined: none when poll timed out or failed. */
  function Examined(ready: int, slots: seq<Slot>): (n: nat)
    ensures n <= |slots|
  {
    if ready > 0 then |slots| else 0
  }

  /** The task tree: every cell is entered under the id of its task. */
  ghost predicate Indexed(taskQueue: Tree<TaskCell>)
    reads Entries(taskQueue).Values
  {
    Ordered(taskQueue) && forall k :: k in Entries(taskQueue).Keys ==>
      Entries(taskQueue)[k].id == Entries(taskQueue)[k].task.id == k
  }

  /** After the poll results are in, exactly the ready tasks are scheduled. */
  lemma ScheduledIffReady<D>(taskQueue: Tree<D>, tasks: seq<Task>, before: map<int, Task>,
                             slots: seq<Slot>, n: nat, revents: nat -> Revents,
                             clocks: Clocks, limit: int, due: map<int, D>, due': map<int, D>)
    requires Ordered(taskQueue) && |tasks| == |Visits(taskQueue)| && n <= |slots|
    requires before.Keys == Entries(taskQueue).Keys
    requires forall i :: 0 <= i < |tasks| ==>
               tasks[i].id == Visits(taskQueue)[i].0 && tasks[i].id in before.Keys && before[tasks[i].id] == tasks[i]
    requires DueSoFar(tasks, |tasks|, clocks, limit, due, Entries(taskQueue))
    requires FiredSoFar(Entries(taskQueue), due, due', slots, n, revents)
    ensures forall k :: k in before.Keys ==> (k in due'.Keys <==> Ready(before[k], slots, n, revents, clocks, limit))
  {
    VisitsTraverse(taskQueue);
    forall k | k in before.Keys
      ensures k in due'.Keys <==> Ready(before[k], slots, n, revents, clocks, limit)
    {
      var i :| 0 <= i < |Visits(taskQueue)| && Visits(taskQueue)[i].0 == k;
      assert tasks[i] == before[k];
    }
  }

  /** The snapshot lists the tasks of the tree. */
  lemma SnapshotIsComplete(taskQueue: Tree<TaskCell>, tasks: seq<Task>, before: map<int, Task>)
    requires Indexed(taskQueue) && tasks == TasksIn(Visits(taskQueue))
    requires Holds(Entries(taskQueue), before)
    ensures forall i :: 0 <= i < |tasks| ==>
              tasks[i].id == Visits(taskQueue)[i].0 && tasks[i].id in before.Keys && before[tasks[i].id] == tasks[i]
    ensures forall i, j :: 0 <= i < j < |tasks| ==> tasks[i].id < tasks[j].id
  {
    VisitsTraverse(taskQueue);
  }

  /** What poll is asked for in each slot. */
  ghost predicate AsksFor(asked: seq<PollFd>, slots: seq<Slot>)
  {
    |asked| == |slots| && forall i :: 0 <= i < |asked| ==> asked[i] == Request(slots[i].event)
  }

  /** The same, event by event. */
  lemma AskedInBits(asked: seq<PollFd>, tasks: seq<Task>, j: nat, k: nat, clocks: Clocks, limit: int)
    requires AsksFor(asked, Slots(tasks, clocks, limit))
    requires j < |tasks| && k < |tasks[j].events| && Polled(tasks[j], k, clocks, limit)
    ensures var i, event := SlotAt(tasks, j, k, clocks, limit), tasks[j].events[k];
            i < |asked| && asked[i] == PollFd(event.fd, event.flags.readable, event.flags.writable)
  {
    hide Slots, SlotAt;
    assert tasks[..|tasks|] == tasks;
    SlotIsAt(tasks, |tasks|, j, k, clocks, limit);
  }

  lemma NothingHungUp(all: map<int, TaskCell>, before: map<int, Task>, slots: seq<Slot>, revents: nat -> Revents)
    requires Holds(all, before)
    ensures HungUpNulled(all, before, slots, 0, revents)
  {
    NothingSeen(before, slots, revents);
    NulledIffSeen(all, before, slots, 0, revents);
  }

  lemma NothingScheduledYet<D>(all: map<int, D>, due: map<int, D>, tasks: seq<Task>, clocks: Clocks, limit: int,
                               revents: nat -> Revents)
    requires DueSoFar(tasks, |tasks|, clocks, limit, due, all)
    ensures Within(due, all) && FiredSoFar(all, due, due, Slots(tasks, clocks, limit), 0, revents)
  {
    NothingFired(all, due, Slots(tasks, clocks, limit), revents);
  }

  lemma PollsFill(items: seq<PollItem>, slots: seq<Slot>)
    requires Fills(items, slots)
    ensures |items| == |slots| && forall i :: 0 <= i < |items| ==> items[i].event == slots[i].event
  {
  }

  /** The part of a round that decides: walk, poll, look at the results. */
  method Plan(taskQueue: Tree<TaskCell>, tasks: seq<Task>, clocks: Clocks, limit: int,
              ready: int, revents: nat -> Revents,
              ghost all: map<int, TaskCell>, ghost before: map<int, Task>)
    returns (schedule: Tree<TaskCell>, ghost due: map<int, TaskCell>, ghost due': map<int, TaskCell>,
             ghost asked: seq<PollFd>)
    requires Entered(taskQueue, all) && Keyed(all)
    requires |tasks| == |Visits(taskQueue)|
    requires forall i :: 0 <= i < |tasks| ==> tasks[i].id == Visits(taskQueue)[i].0
    requires Holds(all, before)
    modifies all.Values
    ensures Entered(schedule, due') && DueSoFar(tasks, |tasks|, clocks, limit, due, all)
    ensures var slots := Slots(tasks, clocks, limit);
            && FiredSoFar(all, due, due', slots, Examined(ready, slots), revents)
            && HungUpNulled(all, before, slots, Examined(ready, slots), revents)
            && AsksFor(asked, slots)
  {
    hide FiredSoFar, HungUpNulled, TasksSeen, Judged, Slots, DueSoFar, Fills, ItemsWithin, Numbered, IsTraversal, RunsNow;
    VisitsTraverse(taskQueue);
    var visits := Visits(taskQueue);
    ghost var slots := Slots(tasks, clocks, limit);
    NothingHungUp(all, before, slots, revents);
    var polls, pollSize;
    ghost var items;
    schedule, polls, pollSize, due, items := Collect(visits, tasks, clocks, limit, all);
    due', asked := due, [];
    NothingScheduledYet(all, due, tasks, clocks, limit, revents);
    PollsFill(items, slots);
    if pollSize > 0 {
      var pfds := PollsCollect(polls, pollSize, items);
      asked := pfds[..];
      if ready > 0 {
        schedule, due' := Detect(taskQueue, schedule, polls, pollSize, revents, all, before, due, items, slots);
      }
    }
  }

  /** What a round has done, told by bits and clocks: which tasks of the walk went, and what became of them. */
  ghost predicate RoundDone(tasks: seq<Task>, after: map<int, Task>, gone: set<int>, n: nat, revents: nat -> Revents,
                            clocks: Clocks, limit: int)
  {
    forall j :: 0 <= j < |tasks| ==>
      && (tasks[j].id in gone <==> Goes(tasks, j, n, revents, clocks, limit))
      && tasks[j].id in after.Keys
      && after[tasks[j].id] == if Fails(tasks, j, n, revents, clocks, limit) then tasks[j].(handle := None, accessTime := 0)
                               else tasks[j]
  }

  ghost function Held(all: map<int, TaskCell>): map<int, Task>
    reads all.Values
  {
    map k | k in all.Keys :: all[k].task
  }

  lemma RoundInBits(tasks: seq<Task>, before: map<int, Task>, all: map<int, TaskCell>, gone: set<int>,
                    n: nat, revents: nat -> Revents, clocks: Clocks, limit: int)
    requires n <= |Slots(tasks, clocks, limit)|
    requires forall i, j :: 0 <= i < j < |tasks| ==> tasks[i].id < tasks[j].id
    requires forall j :: 0 <= j < |tasks| ==> tasks[j].id in before.Keys && before[tasks[j].id] == tasks[j]
    requires HungUpNulled(all, before, Slots(tasks, clocks, limit), n, revents)
    requires forall k :: k in before.Keys ==>
               (k in gone <==> Ready(before[k], Slots(tasks, clocks, limit), n, revents, clocks, limit))
    ensures RoundDone(tasks, Held(all), gone, n, revents, clocks, limit)
  {
    hide Slots, Ready, Judged, Goes, Fails;
    forall j: nat | j < |tasks|
      ensures tasks[j].id in gone <==> Goes(tasks, j, n, revents, clocks, limit)
      ensures all[tasks[j].id].task
           == if Fails(tasks, j, n, revents, clocks, limit) then tasks[j].(handle := None, accessTime := 0) else tasks[j]
    {
      ReadyInBits(tasks, j, n, revents, clocks, limit);
    }
  }

  /** One round: the waiting tasks that are ready, and no others, leave the task tree, each once
      and in ascending id order; those that hung up lose their handle. `before` and `tasks` are what
      the tree held when the round began, by id and in the order of its walk, and `asked` what poll was
      asked for. */
  method Round(taskQueue: Tree<TaskCell>, clocks: Clocks, limit: int, ready: int, revents: nat -> Revents,
               ghost before: map<int, Task>, ghost tasks: seq<Task>)
    returns (taskQueue': Tree<TaskCell>, deployed: seq<TaskCell>, ghost asked: seq<PollFd>)
    requires Indexed(taskQueue) && tasks == TasksIn(Visits(taskQueue))
    requires Holds(Entries(taskQueue), before)
    modifies Entries(taskQueue).Values
    ensures |asked| == PolledUpTo(tasks, |tasks|, clocks, limit)
    ensures forall j, k :: 0 <= j < |tasks| && 0 <= k < |tasks[j].events| && Polled(tasks[j], k, clocks, limit) ==>
              var i, event := SlotAt(tasks, j, k, clocks, limit), tasks[j].events[k];
              i < |asked| && asked[i] == PollFd(event.fd, event.flags.readable, event.flags.writable)
    ensures RoundDone(tasks, Held(Entries(taskQueue)), Ids(deployed), if ready > 0 then |asked| else 0, revents, clocks, limit)
    ensures forall i, j :: 0 <= i < j < |deployed| ==> deployed[i].id < deployed[j].id
    ensures forall j :: 0 <= j < |deployed| ==>
              deployed[j].id in Entries(taskQueue).Keys && Entries(taskQueue)[deployed[j].id] == deployed[j]
    ensures var slots := Slots(tasks, clocks, limit);
            forall k :: k in Entries(taskQueue).Keys ==>
              (k in Ids(deployed) <==> Ready(before[k], slots, Examined(ready, slots), revents, clocks, limit))
    ensures var slots := Slots(tasks, clocks, limit);
            HungUpNulled(Entries(taskQueue), before, slots, Examined(ready, slots), revents)
    ensures Entered(taskQueue', Entries(taskQueue) - Ids(deployed))
  {
    ghost var slots := Slots(tasks, clocks, limit);
    SnapshotIsComplete(taskQueue, tasks, before);
    var held := TasksIn(Visits(taskQueue));
    var schedule;
    ghost var due, due';
    schedule, due, due', asked := Plan(taskQueue, held, clocks, limit, ready, revents, Entries(taskQueue), before);
    ScheduledIffReady(taskQueue, tasks, before, slots, Examined(ready, slots), revents, clocks, limit, due, due');
    assert forall k :: k in before.Keys ==> allocated(Entries(taskQueue)[k]);
    taskQueue', deployed := Deploy(taskQueue, schedule, Entries(taskQueue), due');
    SlotCount(tasks, clocks, limit);
    forall j: nat, k: nat | j < |tasks| && k < |tasks[j].events| && Polled(tasks[j], k, clocks, limit) {
      AskedInBits(asked, tasks, j, k, clocks, limit);
    }
    RoundInBits(tasks, before, Entries(taskQueue), Ids(deployed), Examined(ready, slots), revents, clocks, limit);
  }
}
