/** Tasks, their callback chains, and the successor tasks the request handlers return.

    A task is a value here: the scheduler owns exactly one per request in progress
    (proved in SchedulerProofs), so copying it loses nothing but its address. */
module Tasks {

  datatype Option<+T> = None | Some(value: T)

  /** A `timeval`. */
  datatype Time = Time(sec: int, usec: int)

  /** The four event bits of lib/scheduler.h. */
  datatype Flags = Flags(alwaysOn: bool, readable: bool, writable: bool, timeout: bool)

  datatype Event = Event(fd: int, flags: Flags, stamp: Time, timeout: int)

  /** The functions a task's handle or callback can point to. */
  datatype Handle =
    | AcceptRequest
    | DecodeRequestHeader
    | DecodeRequest
    | ResolveRequest
    | ServeFile
    | Proxify
    | ProxyMonitor
    | DecodePostRequest
    | DecodeMultiPartData
    | Plugin(entry: nat)
    | FinishRequest

  datatype Task = Task(
    id: int,
    request: nat,
    handle: Option<Handle>,
    callbacks: seq<Handle>,
    accessTime: int,
    events: seq<Event>)

  /** What a handler hands back: a null pointer, or a freshly created task for the same request. */
  datatype Return =
    | Null
    | Fresh(handle: Option<Handle>, callbacks: seq<Handle>, accessTime: int, events: seq<Event>)

  // ---- What each handler can return -------------------------------------------------

  /** No callbacks of its own, and its handle left null or set to one of `handles`. */
  predicate Bare(ret: Return, handles: set<Handle>)
  {
    ret.Fresh? && ret.callbacks == [] && (ret.handle.Some? ==> ret.handle.value in handles)
  }

  /** execute_plugin: refusal, the raw plugin entry, or body decoding followed by the plugin. */
  predicate FromExecutePlugin(ret: Return)
  {
    && ret.Fresh?
    && match ret.handle
       case None => ret.callbacks == []
       case Some(Plugin(_)) => ret.callbacks == []
       case Some(DecodePostRequest) => |ret.callbacks| == 1 && ret.callbacks[0].Plugin?
       case _ => false
  }

  predicate CanReturn(handle: Handle, ret: Return)
  {
    match handle
    case AcceptRequest => Bare(ret, {AcceptRequest, DecodeRequestHeader})
    case DecodeRequestHeader => Bare(ret, {DecodeRequestHeader, Proxify, DecodeRequest})
    case DecodeRequest => Bare(ret, {ResolveRequest})
    case ResolveRequest => Bare(ret, {ServeFile}) || FromExecutePlugin(ret)
    case ServeFile => Bare(ret, {})
    case Proxify => Bare(ret, {ProxyMonitor})
    case ProxyMonitor => Bare(ret, {ProxyMonitor})
    case DecodePostRequest => Bare(ret, {DecodeMultiPartData})
    case DecodeMultiPartData => Bare(ret, {DecodeMultiPartData})
    // A plugin is opaque: nothing, or any task of the same request. Ending the request is the server's.
    case Plugin(_) => ret.Null? || (ret.handle != Some(FinishRequest) && FinishRequest !in ret.callbacks)
    case FinishRequest => ret.Null?
  }

  // ---- The callback chain as a stack of continuations -------------------------------

  /** Everything still to be called for the task's request, next call first. */
  function Stack(task: Task): seq<Handle>
  {
    (if task.handle.Some? then [task.handle.value] else []) + task.callbacks
  }

  /** The calls a returned task asks for before its parent's chain resumes. */
  function Pushed(ret: Return): seq<Handle>
  {
    match ret
    case Null => []
    case Fresh(handle, callbacks, _, _) => (if handle.Some? then [handle.value] else []) + callbacks
  }

  /** execute_callback: promote the first callback to handle, or destroy the task. */
  function PopCallback(task: Task): Option<Task>
  {
    if task.callbacks == [] then None
    else Some(task.(handle := Some(task.callbacks[0]), callbacks := task.callbacks[1..]))
  }

  /** antd_execute_task after the handler returned: the task given back to the scheduler, if any.
      `id` is the id of the task the handler created. */
  function AfterCall(task: Task, ret: Return, id: int): Option<Task>
  {
    match ret
    case Null => PopCallback(task)
    case Fresh(handle, callbacks, accessTime, events) =>
      var spliced := Task(id, task.request, handle, callbacks + task.callbacks, accessTime, events);
      if handle.None? then PopCallback(spliced) else Some(spliced)
  }

  /** Promoting a callback leaves the same calls to make. */
  lemma PopKeepsTheStack(task: Task)
    ensures PopCallback(task).Some? ==> Stack(PopCallback(task).value) == task.callbacks
  {
    if task.callbacks != [] {
      assert [task.callbacks[0]] + task.callbacks[1..] == task.callbacks;
    }
  }

  /** One call pops the top of the stack and pushes what the handler returned; the task is
      destroyed exactly when that leaves nothing to do. What goes on is the returned task, if there is one. */
  lemma CallIsAStackStep(task: Task, ret: Return, id: int)
    requires task.handle.Some?
    ensures AfterCall(task, ret, id).None? <==> Pushed(ret) + Stack(task)[1..] == []
    ensures AfterCall(task, ret, id).Some? ==>
              var next := AfterCall(task, ret, id).value;
              && next.handle.Some?
              && next.request == task.request
              && Stack(next) == Pushed(ret) + Stack(task)[1..]
              && next.id == (if ret.Null? then task.id else id)
              && next.accessTime == (if ret.Null? then task.accessTime else ret.accessTime)
              && next.events == (if ret.Null? then task.events else ret.events)
  {
    assert Stack(task)[1..] == task.callbacks;
    if ret.Null? {
      PopKeepsTheStack(task);
      assert Pushed(ret) + task.callbacks == task.callbacks;
    } else {
      var all := ret.callbacks + task.callbacks;
      var spliced := Task(id, task.request, ret.handle, all, ret.accessTime, ret.events);
      if ret.handle.None? {
        PopKeepsTheStack(spliced);
        assert Pushed(ret) == ret.callbacks;
      } else {
        assert Pushed(ret) + task.callbacks == [ret.handle.value] + all;
      }
    }
  }

  /** The stack ends in finish_request, and nowhere else mentions it. */
  predicate EndsInFinish(stack: seq<Handle>)
  {
    stack != [] && stack[|stack| - 1] == FinishRequest && FinishRequest !in stack[..|stack| - 1]
  }

  lemma OnlyTheLastFinishes(stack: seq<Handle>)
    requires EndsInFinish(stack)
    ensures stack[0] == FinishRequest ==> |stack| == 1
  {
    var earlier := stack[..|stack| - 1];
    if earlier != [] {
      assert earlier[0] in earlier;
    }
  }

  predicate WellChained(task: Task)
  {
    EndsInFinish(Stack(task))
  }

  /** No handler but finish_request itself can lose or duplicate the closing finish_request. */
  lemma CallKeepsTheChain(task: Task, ret: Return, id: int)
    requires task.handle.Some? && WellChained(task) && CanReturn(task.handle.value, ret)
    ensures task.handle.value == FinishRequest <==> AfterCall(task, ret, id).None?
    ensures AfterCall(task, ret, id).Some? ==>
              var next := AfterCall(task, ret, id).value;
              next.handle.Some? && WellChained(next) && next.request == task.request
  {
    CallIsAStackStep(task, ret, id);
    var rest := Stack(task)[1..];
    if task.handle.value == FinishRequest {
      OnlyTheLastFinishes(Stack(task));
    } else {
      assert rest != [] && EndsInFinish(rest);
      assert FinishRequest !in Pushed(ret);
      var stack := Pushed(ret) + rest;
      assert stack[..|stack| - 1] == Pushed(ret) + rest[..|rest| - 1];
    }
  }
}
