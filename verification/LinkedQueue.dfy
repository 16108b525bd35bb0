/** The linked lists of lib/scheduler.c: the queue of ready tasks, and the callbacks a task carries. */
module LinkedQueue {
  import opened Lists
  import opened Tasks

  class Queue<T> {
    var first: Node?<T>
    ghost var nodes: seq<Node<T>>

    ghost predicate Valid()
      reads this, nodes
    {
      IsList(first, nodes)
    }

    constructor ()
      ensures Valid() && nodes == []
    {
      first, nodes := null, [];
    }

    /** enqueue: the newcomer goes last. */
    method Enqueue(data: T)
      requires Valid()
      modifies this, nodes
      ensures Valid()
      ensures |nodes| == |old(nodes)| + 1 && nodes[..|old(nodes)|] == old(nodes) && fresh(nodes[|old(nodes)|])
      ensures Values(nodes) == old(Values(nodes)) + [data]
    {
      hide IsList;
      ghost var was := Values(nodes);
      var it := Last(first, nodes);
      var item := new Node(data);
      ListOfOne(item);
      if it == null {
        first := item;
        assert [] + [item] == [item];
      } else {
        Attach(it, item, first, nodes, [item]);
      }
      assert Values(nodes) == was;
      ValuesOfOneMore(nodes, item);
      nodes := nodes + [item];
    }

    /** dequeue: the oldest leaves, detached, or nothing does. */
    method Dequeue() returns (it: Node?<T>)
      requires Valid()
      modifies this, nodes
      ensures Valid()
      ensures it == null <==> old(nodes) == []
      ensures it == null ==> nodes == []
      ensures it != null ==> it == old(nodes[0]) && it.next == null && nodes == old(nodes)[1..] && it !in nodes
      ensures it != null ==> [it.value] + Values(nodes) == old(Values(nodes))
    {
      it := first;
      if it != null {
        forall j: nat | 0 < j < |nodes| ensures nodes[0] != nodes[j] {
          NoNodeTwice(first, nodes, 0, j);
        }
        first := it.next;
        nodes := nodes[1..];
        it.next := null;
      }
    }
  }

  /** enqueue_callback: el is hung behind the last callback of cb; with no cb there is nothing to hang it on. */
  method EnqueueCallback(cb: Node?<Handle>, el: Node?<Handle>, ghost own: seq<Node<Handle>>, ghost more: seq<Node<Handle>>)
    requires IsList(cb, own) && IsList(el, more) && (forall n | n in own :: n !in more)
    modifies own
    ensures cb != null ==> IsList(cb, own + more)
    ensures cb == null ==> IsList(el, more)
    ensures Values(own) == old(Values(own)) && Values(more) == old(Values(more))
  {
    var it := Last(cb, own);
    if it == null {
      return;
    }
    Attach(it, el, cb, own, more);
  }

  /** A task in memory: `rest` is everything but its handle and its chain of callbacks. */
  class TaskRecord {
    const rest: Task
    var handle: Option<Handle>
    var callback: Node?<Handle>
    ghost var chain: seq<Node<Handle>>

    ghost predicate Valid()
      reads this, chain
    {
      IsList(callback, chain)
    }

    ghost function AsTask(): Task
      reads this, chain
    {
      rest.(handle := handle, callbacks := Values(chain))
    }

    /** What a handler hands back when it returns this task. */
    ghost function AsReturn(): Return
      reads this, chain
    {
      Fresh(handle, Values(chain), rest.accessTime, rest.events)
    }

    constructor (rest: Task)
      ensures this.rest == rest && Valid() && chain == [] && handle == None
    {
      this.rest, handle, callback, chain := rest, None, null, [];
    }

    /** execute_callback: whether the task goes back to the scheduler; if not, it is destroyed. */
    method ExecuteCallback() returns (alive: bool)
      requires Valid()
      modifies this
      ensures Valid()
      ensures PopCallback(old(AsTask())) == if alive then Some(AsTask()) else None
    {
      alive := callback != null;
      if alive {
        handle := Some(callback.value);
        callback := callback.next;
        chain := chain[1..];
      }
    }
  }

  /** The splice in antd_execute_task: the callbacks of the finished task resume after the returned task's own. */
  method Splice(task: TaskRecord, rtask: TaskRecord)
    requires task != rtask && task.Valid() && rtask.Valid() && (forall n | n in rtask.chain :: n !in task.chain)
    modifies task, rtask, rtask.chain
    ensures rtask.Valid() && task.callback == null && rtask.handle == old(rtask.handle)
    ensures Values(rtask.chain) == old(Values(rtask.chain)) + old(Values(task.chain))
  {
    hide IsList, Values;
    ghost var own, more := rtask.chain, task.chain;
    EmptyList(rtask.callback, own);
    EmptyList(task.callback, more);
    if task.callback != null {
      if rtask.callback != null {
        EnqueueCallback(rtask.callback, task.callback, own, more);
      } else {
        rtask.callback := task.callback;
        assert own + more == more;
      }
      task.callback := null;
    } else {
      assert own + more == own;
    }
    ValuesOfBoth(own, more);
    rtask.chain, task.chain := own + more, [];
  }

  /** antd_execute_task once the handler is back: which task, if any, the scheduler gets, and what that task is. */
  method AfterReturn(task: TaskRecord, rtask: TaskRecord?) returns (given: TaskRecord?)
    requires task.Valid()
    requires rtask != null ==>
               rtask.Valid() && rtask != task && rtask.rest.request == task.rest.request
               && (forall n | n in rtask.chain :: n !in task.chain)
    modifies task, rtask, if rtask == null then [] else rtask.chain
    ensures given != null ==> given.Valid() && given == if rtask == null then task else rtask
    ensures (if given == null then None else Some(given.AsTask()))
         == old(if rtask == null then AfterCall(task.AsTask(), Null, 0)
                else AfterCall(task.AsTask(), rtask.AsReturn(), rtask.rest.id))
  {
    if rtask == null {
      var alive := task.ExecuteCallback();
      given := if alive then task else null;
    } else {
      Splice(task, rtask);
      given := rtask;
      if rtask.handle == None {
        var alive := rtask.ExecuteCallback();
        given := if alive then rtask else null;
      }
    }
  }
}
