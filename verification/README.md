# A verified model of the antd server library

antd is an event-driven web server library in C. This project models the parts of it whose correctness is hard
to see from one function at a time, and proves what they promise:

- **The scheduler** (`Scheduler.dfy`, `SchedulerInvariant.dfy`, `SchedulerProofs.dfy`, `SchedulerTheorems.dfy`,
  `SchedulerHangUps.dfy`, `SchedulerRounds.dfy`, `SchedulerHistories.dfy`, `SchedulerValidations.dfy`,
  `SchedulerLedger.dfy`): the event loop, the workers and any number of adders as one transition system. A step is one
  critical section, one semaphore operation, one unlocked read of shared data or one handler call, and every
  interleaving is considered. `SchedulerTheorems` states what holds in every reachable state and over every run: one
  task per request until the one call of `finish_request`, no id used twice, no lost wake-up, an exact `pending_task`,
  no stuck request, and a shutdown that frees every worker and ends the event loop. `Histories` says which calls are
  made for a request, `Validations` that a task too old is destroyed and every call was validated, `Ledger` that ready
  tasks are called first in, first out and where every post goes. `HangUps` says exactly when a task that lost its
  handle can be called, and `Rounds` which tasks a round takes out of the task tree while the other threads insert.
- **The request handlers** (`Tasks.dfy`), reduced to what each can return, and the callback chain as a stack of
  continuations. `LinkedQueue.dfy` has the queue of ready tasks and the splicing of callbacks in memory.
- **One round of the event loop** (`EventRound.dfy`, `PollBits.dfy`, `Timeouts.dfy`): the round in memory, when nothing
  else touches the task tree: which waiting tasks it deploys, told by event bits, poll results and clocks, and in which
  order; and what unit a timeout is in.
- **The search tree** (`Bst.dfy`) as linked nodes updated in place, refining a finite map.
- **Streaming SHA-1** (`Sha1Spec.dfy`, `Sha1Block.dfy`, `Sha1Remains.dfy`, `Sha1.dfy`, `Sha1Examples.dfy`): FIPS PUB
  180-1 as sections 3 to 7 state it and its examples in appendices A and B, the in-place circular schedule with renamed
  registers, the buffer and the two-word bit count, and what is left of the caller's data.
- **WebSocket frames** (`Frames.dfy`, `WebSocket.dfy`, `FileTransfer.dfy`, `FrameExamples.dfy`): the codec of
  RFC 6455, sections 5.2 to 5.4, its examples in section 5.7, masking, the answers to close and ping, and files sent
  as fragmented messages.
- **The chained hash dictionary** (`Tables.dfy`, `Dictionary.dfy`), **base 64** (`Base64Spec.dfy`, `Base64.dfy`,
  `Base64Examples.dfy`, RFC 4648) and the **URL codec** (`UrlCodec.dfy`, `UrlExamples.dfy`). `Lists.dfy` has
  the linked lists that the queue, the callbacks and the dictionary share.

Code that changes memory is modelled as code that changes memory: nodes, arrays and fields are updated in place
by methods, each tied to a specification by its postconditions. `dafny verify dfyconfig.toml` checks everything.

## Assumptions about the outside

- A handler always returns, and returns a null pointer or one fresh task for the same request, as `Tasks.CanReturn`
  lists for each handler. A plugin may return any such task that does not name `finish_request`.
- `poll`, `gettimeofday`, `time`, `rand` and the order in which threads run are arbitrary inputs; `time` never goes
  back. Calling a null handle ends the process: a thread about to do so has no step.
- `accept` returns a positive descriptor that no open request uses, so no request has task id 0. `stop` runs on no
  worker. `malloc` succeeds.
- A WebSocket connection delivers bytes in order; a read gets all the bytes it asks for, or those that come before
  the peer stops, or fails because none come (`lib/handle.c:616-772`; giving up after a time is such a stop); sends
  succeed. What a read does not fill keeps what was in memory, which is a parameter of the methods that read.
- The host is little-endian, has a 64-bit `size_t` and 32-bit `int`, signed `char`, and the C locale.

## Where the code does something else than it says

- `lib/scheduler.h:71` says an event's timeout is in seconds; `lib/scheduler.c:712-715` compares milliseconds. The
  model follows the code. `Timeouts.FiftyIsMilliseconds` has the timeout of `server.c:400`, `Timeouts.SameLookIff`
  the moments at which the two readings agree, and `Timeouts.SameLookAlwaysIff` the timeouts for which they always do.
- A task that hung up has its handle removed and is meant to die in the validation (`lib/scheduler.c:819-828`).
  `HangUps.NullCallsIff`: its null handle can be called if and only if the clock at the start is no greater than
  `scheduler_timeout`, which is read unchecked (`config.c:160`), with 2147483647 for example.
- `ws_pong` allocates the ping's length, and `ws_read_data` writes a null behind what it reads. `WebSocket.PongFitsIff`
  has the condition under which that write stays inside, and `WebSocket.OneBytePingOverruns` a ping for which it does
  not. What is said of a ping that fails the condition is what the code goes on to do if the stray null does no harm;
  `WebSocket.ReceiveAll` promises nothing for it.
- `ws_read_header` takes any bytes at all for a whole field. `Frames.HeardThoughCutIff` says which truncated headers
  it takes for whole ones.
- `ws_read_data` takes any number of bytes to read; a piece that does not start at a multiple of four
  is unmasked with the wrong key bytes, unless the key repeats in step: `Frames.PieceIsRight` and
  `WebSocket.ReadPieces` have the condition, `Frames.InStepNeedsFours` the lengths that meet it.
- `SHA1_Update` takes any length, but its carry test is right only under the condition that
  `Sha1.CountAdvances` proves exact; `Sha1.LongPieceMiscounted` gives a piece of 2^29 bytes that is miscounted.
- `SHA1_Update` takes `const` data, but hashes whole blocks where they lie and leaves them changed.
  `Sha1Remains.LeftAloneIff`: data is left alone whatever it holds if and only if the bytes waiting in the buffer and
  the piece together are fewer than 128; `Sha1Remains.OnesAreLost` has a block that is changed.

## Model

| member | source | states |
|---|---|---|
| SchedulerTheorems.OneTaskPerRequest | lib/scheduler.c:550-603 | In every reachable state `finish_request` was called at most once for a request; before that exactly one task speaks for it, in exactly one place; afterwards none does |
| SchedulerTheorems.EveryTaskLeadsToFinish | httpd.c:229-253 | Every task anywhere carries its request's socket as id, and what is left to call for the request ends in its only `finish_request` |
| SchedulerTheorems.IdsAreDistinct | lib/scheduler.c:860-881 | Two tasks anywhere in the system never share an id, although the id is drawn before the insertion |
| SchedulerTheorems.InsertionIsFresh | lib/scheduler.c:550-556 | An insertion into the task tree never overwrites a waiting task |
| HangUps.NullCallsIff | httpd.c:317-320 | From a given start a thread can come to call a null handle if and only if the clock there is no greater than the validity interval; if it is, one connection that hangs up suffices |
| HangUps.CallsAreSafe | lib/scheduler.c:564-603 | Started with a greater clock, every call goes through a non-null handle, for an open request, and whatever the handler may return is accepted |
| HangUps.HungUpTasksDie | lib/scheduler.c:819-828 | Started so, a task whose descriptor hung up fails the validation and is never queued for a worker |
| HangUps.HungUpTasksAreScheduled | lib/scheduler.c:819-828 | Whatever the clock, a task without a handle is in the running round's schedule, or just past it on its way to the validation |
| Validations.ExpiredIsFinished | lib/scheduler.c:633-640 | In every reachable state a task with `time - access_time` above the limit is destroyed by its validation, with or without a handle: its request is finished, no task speaks for it, and nothing else changes |
| Validations.ValidGoesOn | lib/scheduler.c:633-656 | Otherwise that very task is called by the event loop, or is the one it hands to the workers next, and its request stays open |
| Validations.ExpiredIsGone | lib/scheduler.c:633-640 | After a validation that found a task expired, in every later state of every run no task of that request is anywhere, and no call is made for it |
| Validations.CallsWereValidated | lib/scheduler.c:620-657 | Every task that is ready or called passed its validation, and was handed on unchanged from there to the call |
| Validations.FinishesAreAccountedFor | httpd.c:229-253 | A request is finished by a call of `finish_request` or by a validation that finds it expired, by nothing else, and once |
| Histories.CallsFollowTheStack | lib/scheduler.c:564-603 | Over every run, the calls made for a request are those of a stack that begins with `accept_request` and `finish_request`: each call is the one on top, what its handler returns takes its place, and the request's task always has the rest to call |
| Histories.CallOutcome | lib/scheduler.c:564-603 | A call puts the returned task into the thread's hands, with the socket as id and the stack popped and pushed, or finishes the request; nothing else changes |
| Histories.WhereTasksComeFrom | lib/scheduler.c:550-857 | Only calls and new connections make tasks; every other task was there before the step, the same in every field unless it hung up |
| Histories.FileIsServed | server.c:36-336 | The calls that serve a file, and what each returns, are a run of that stack down to nothing |
| Histories.PostReachesThePlugin | server.c:534-585 | So are those that decode a body and then call the plugin |
| Ledger.FirstInFirstCalled | lib/scheduler.c:229-254 | The tasks the workers have taken up are, in order, the first of those made ready, and the queue holds the rest |
| Ledger.PostsAreConserved | lib/scheduler.c:116-126 | Every post to either semaphore is still there or was waited for: one per ready task and one per worker from `stop`, one per insertion and one for the event loop from `stop` |
| SchedulerTheorems.LoopRestsIff | lib/scheduler.c:845-851 | After a round the event loop sleeps if and only if no task waits |
| SchedulerTheorems.PendingTaskIsExact | lib/scheduler.c:554-559 | `pending_task` is the size of the task tree, less the insertions not yet counted, plus the removals not yet counted; exact when none is in flight |
| SchedulerTheorems.NoLostWorkerWakeup | lib/scheduler.c:229-254 | While the scheduler runs, ready tasks number at most the posts there, the posts due and the workers not committed to sleep |
| SchedulerTheorems.NoLostLoopWakeup | lib/scheduler.c:845-851 | The event loop never sleeps over a non-empty task tree unless a post is there or an adder is about to make one |
| SchedulerTheorems.OnlySleepBlocks | lib/scheduler.c:229-256 | A thread that has not ended, and is not about to call a null handle, is held up only by its semaphore at zero |
| SchedulerTheorems.NoRequestIsStuck | lib/scheduler.c:740-851 | While the scheduler runs and no thread is about to call a null handle, some thread that an open request's current task depends on can take a step |
| SchedulerTheorems.StopLeavesNobodyAsleep | lib/scheduler.c:116-126 | Once `stop` has made its posts, every worker that has not ended can take a step, unless it is about to call a null handle |
| SchedulerTheorems.StopWakesTheLoop | lib/scheduler.c:116-126 | Once `stop` has posted the event loop's semaphore, the loop is never asleep at zero: it has ended or can take a step, a null handle apart |
| SchedulerTheorems.LoopShutdownIsBounded | lib/scheduler.c:740-852 | In any piece of a run after `status` is cleared, past its walk over the task tree, the event loop takes at most as many steps as that round's slots and scheduled tasks allow |
| SchedulerTheorems.LoopWindsDown | lib/scheduler.c:740-852 | Each such step brings the event loop closer to its end, and it does not start another round |
| SchedulerTheorems.ShutdownIsBounded | lib/scheduler.c:116-139 | In any piece of a run after `stop` clears `status`, a worker takes at most six steps and passes at most one wait |
| SchedulerTheorems.WorkerWindsDown | lib/scheduler.c:229-256 | Each such step brings the worker closer to its end |
| SchedulerTheorems.OthersStay | lib/scheduler.c:116-126 | No step changes another thread's position, and nothing sets `status` again |
| Reachability.RunInv | lib/scheduler.c:229-851 | The invariant holds after every step of every run |
| Reachability.StepInv | lib/scheduler.c:229-851 | Every step of every thread, every accept, tick and `stop` keeps the invariant |
| Reachability.InitInv | lib/scheduler.c:406-493 | The invariant holds when the scheduler starts |
| StructureProofs.Calls | lib/scheduler.c:564-603 | A handler call keeps requests, tasks and threads in one-to-one order, whatever it returns |
| StructureProofs.Polls | lib/scheduler.c:794-832 | So does the result of one poll slot, and the polled task is still in the task tree |
| StructureProofs.Deploys | lib/scheduler.c:677-687 | So does taking the least scheduled task out of the tree |
| StructureProofs.AcceptKeepsStructure | httpd.c:229-253 | So does a newly accepted connection |
| Rounds.RoundTakesOutExactlyTheReady | lib/scheduler.c:752-844 | From one round's walk over the tree to its end, with any interleaving of the other threads, the event loop takes out exactly the tasks of the walk that are ready by the poll results it examined, each once, in ascending id order, and without a handle if they hung up; nothing inserted meanwhile |
| Rounds.RoundGoesByTheBits | lib/scheduler.c:752-844 | The same in bits: a task of the walk is taken out if and only if it has no events, or one of them is always on, expired or timed out, or an examined slot of it answers what was asked or reports an error or a hang-up; it loses its handle if and only if a slot reports those without an answer |
| Rounds.RoundProgresses | lib/scheduler.c:752-844 | At every moment of the round, what is scheduled and what is taken out already are together what must run by the results seen |
| Rounds.OnlyTheLoopTakesOut | lib/scheduler.c:677-687 | No step but the event loop's taking out removes a task from the tree |
| Timeouts.OverIff | lib/scheduler.c:711-713 | A timeout is over when that many milliseconds have passed, in microseconds cut off toward zero, while the count fits 32 bits |
| Timeouts.SameLookIff | lib/scheduler.c:712-716 | At a given moment the code and the reading in seconds agree on an unexpired timeout event if and only if the time elapsed is below both limits or above both |
| Timeouts.SameLookAlwaysIff | lib/scheduler.c:712-716 | They agree at every moment if and only if the timeout is 0 or -2^31 |
| Timeouts.FiftyIsMilliseconds | server.c:400-400 | A timeout of 50 is due after 50 milliseconds |
| Identifiers.AllocateId | lib/scheduler.c:860-881 | The id search over the linked tree computes `NextId` |
| Identifiers.DrawnIdIsNext | lib/scheduler.c:860-881 | An id that was not asked for or could not be had is the first free one above the allocator, which moves there |
| Identifiers.NextId | lib/scheduler.c:860-881 | The id handed out is not taken, and is the one asked for when that is free |
| Tasks.CallKeepsTheChain | server.c:265-273 | No handler but `finish_request` itself can lose or double the closing `finish_request` |
| Tasks.CallIsAStackStep | lib/scheduler.c:186-202 | A call pops the continuation stack and pushes what the handler returned; the task dies exactly when nothing is left; what goes on has the returned task's id, access time and events |
| LinkedQueue.Queue.Enqueue | lib/scheduler.c:98-114 | The queue's values become the old ones with the new one last |
| LinkedQueue.Queue.Dequeue | lib/scheduler.c:141-150 | The oldest item leaves, detached; null exactly when the queue was empty |
| LinkedQueue.EnqueueCallback | lib/scheduler.c:176-184 | Two disjoint chains become one; with no first chain nothing happens |
| LinkedQueue.TaskRecord.ExecuteCallback | lib/scheduler.c:186-202 | The first callback becomes the handle, or there was none and the task is to be destroyed |
| LinkedQueue.Splice | lib/scheduler.c:577-588 | The returned task's callbacks are its own, then the finished task's; the finished task keeps none |
| LinkedQueue.AfterReturn | lib/scheduler.c:564-603 | Which task the scheduler gets after a call, if any, and that in memory it is what `Tasks.AfterCall` says |
| Lists.NoNodeTwice | lib/scheduler.c:98-114 | A list that ends holds no node twice |
| Lists.Attach | lib/scheduler.c:98-114 | Linking the last node of a list to another list gives their concatenation |
| Lists.CutOut | lib/dictionary.c:113-136 | Relinking past node i leaves the list without it, and detaches it |
| EventRound.Round | lib/scheduler.c:752-844 | With no other thread at the tree, a round deploys exactly the ready tasks of its snapshot, each once, in ascending id order, and nulls exactly those that hung up; both are told by the event bits, the revents bits and the clocks, and the pollfd of each slot asks for the event's bits |
| PollBits.ReadyInBits | lib/scheduler.c:689-727 | Readiness and hang-ups come down to event bits, revents bits and clocks |
| PollBits.SlotIsAt | lib/scheduler.c:720-725 | The slot of an event counts the polled events the walk met before it |
| PollBits.SlotComesFrom | lib/scheduler.c:720-725 | Every slot is that of one polled event |
| EventRound.TaskEventCollect | lib/scheduler.c:689-727 | A task enters the schedule if and only if it is due without polling, and its other events take the next poll slots in order |
| EventRound.Collect | lib/scheduler.c:752-760 | After the walk the schedule holds exactly the tasks due without polling, and the poll list exactly the polled events |
| EventRound.NumberedVisits | lib/scheduler.c:776-785 | The poll keys are exactly 0, 1, 2, ..., and the walk meets the events in the order they were added |
| EventRound.PollsCollect | lib/scheduler.c:659-676 | Slot i of the poll array asks for what the i-th polled event wants |
| EventRound.Detect | lib/scheduler.c:794-832 | After the results are in, the schedule has gained exactly the tasks that fired or hung up, each once however many of its events fired |
| EventRound.Deploy | lib/scheduler.c:835-841 | Without what `antd_task_schedule` does next, every scheduled task leaves the task tree, each once, in ascending id order |
| EventRound.ScheduledIffReady | lib/scheduler.c:752-840 | Scheduled means ready: no events, always on, expired, timed out, fired or hung up |
| Readiness.SlotOwner | lib/scheduler.c:720-725 | Every poll slot belongs to a task of the snapshot |
| Bst.Insert | lib/bst.c:20-36 | The linked tree takes the shape of `SearchTree.Insert`; only its own nodes change |
| Bst.Delete | lib/bst.c:71-97 | The linked tree takes the shape of `SearchTree.Delete` |
| Bst.DeleteRoot | lib/bst.c:80-86 | The two-child case: the right subtree's minimum moves up and is deleted below |
| Bst.Find | lib/bst.c:58-68 | Finds the node of the key, or null exactly when there is none |
| Bst.FindMin | lib/bst.c:38-46 | Returns the node of the least key, or null exactly for the empty tree |
| Bst.FindMax | lib/bst.c:48-56 | Returns the node of the greatest key, or null exactly for the empty tree |
| Bst.ForEach | lib/bst.c:99-106 | The walk's calls are those of the shape's in-order traversal |
| SearchTree.InsertRefines | lib/bst.c:20-36 | Insertion keeps the order and is map update |
| SearchTree.DeleteRefines | lib/bst.c:71-97 | Deletion keeps the order and is map removal, the two-child case included |
| SearchTree.SuccessorMovesUp | lib/bst.c:80-86 | A root with two children is replaced by the next key in order; the left subtree stays |
| SearchTree.FindRefines | lib/bst.c:58-68 | Search is map lookup |
| SearchTree.MinIsLeast | lib/bst.c:38-46 | The minimum's key is the least in the map |
| SearchTree.MaxIsGreatest | lib/bst.c:48-56 | The maximum's key is the greatest in the map |
| SearchTree.VisitsTraverse | lib/bst.c:99-106 | The walk visits every binding exactly once, in strictly ascending key order |
| SearchTree.TraversalIsUnique | lib/bst.c:99-106 | There is only one such walk |
| Sha1Block.Transform | lib/sha1.c:122-177 | The in-place block transformation is the compression of FIPS PUB 180-1, section 7; only the block's bytes change, and they end as the last sixteen schedule words, in the machine's byte order |
| Sha1Block.RecentWords | lib/sha1.c:97-98 | The circular slots hold the schedule words 3, 8, 14 and 16 rounds back |
| Sha1Block.NextWord | lib/sha1.c:97-98 | Writing this round's word keeps the circular schedule |
| Sha1Block.StoreWord | lib/sha1.c:125-128 | Storing a word through the union changes that word and no other |
| Sha1Block.SwapReadsBigEndian | lib/sha1.c:94-95 | The byte swap turns the machine's reading of four bytes into the standard's |
| Sha1Block.ChRewritten | lib/sha1.c:101-102 | The rewritten choice function is the standard's |
| Sha1Block.MajRewritten | lib/sha1.c:104-104 | The rewritten majority function is the standard's |
| Sha1Block.R0 | lib/sha1.c:101-101 | One macro with renamed registers is one round of the standard with shifted ones |
| Sha1Block.R1 | lib/sha1.c:102-102 | The same, for rounds 16 to 19 |
| Sha1Block.R2 | lib/sha1.c:103-103 | The same, for rounds 20 to 39 |
| Sha1Block.R3 | lib/sha1.c:104-104 | The same, for rounds 40 to 59 |
| Sha1Block.R4 | lib/sha1.c:105-105 | The same, for rounds 60 to 79 |
| Sha1.Context.constructor | lib/sha1.c:181-190 | An empty message has been absorbed |
| Sha1.Context.Update | lib/sha1.c:194-219 | The bytes absorbed grow by the piece; the state is that of the whole blocks, the buffer holds the rest; the caller's data becomes what `Sha1Remains.Remains` says |
| Sha1Remains.LeftAloneIff | lib/sha1.c:194-219 | A piece of len bytes behind n others is left alone whatever it holds if and only if n modulo 64 plus len is below 128 |
| Sha1Remains.OnesAreLost | lib/sha1.c:122-177 | A block of ones is changed by its own hashing |
| Sha1Remains.ZerosSurvive | lib/sha1.c:122-177 | A block of zeros is not |
| Sha1.HashWhole | lib/sha1.c:206-210 | Blocks overwritten where they lie never affect later blocks |
| Sha1.CountAdvances | lib/sha1.c:202-204 | An exact two-word count stays exact if and only if `len << 3` fits 32 bits (modulo 2^64) or the low words really overflow |
| Sha1.ShortPieces | lib/sha1.c:202-204 | Pieces under 2^29 bytes always meet that condition |
| Sha1.LongPieceMiscounted | lib/sha1.c:202-204 | A first piece of 2^29 bytes does not, and is counted with a carry too many |
| Sha1.Context.Pad | lib/sha1.c:232-235 | The padding loop ends after fewer than 64 nulls, with the fewest that leave room for the length |
| Sha1.Context.Final | lib/sha1.c:223-252 | The digest spells the hash of the message, its padding and the count as it stands; the context is wiped |
| Sha1.ExactCount | lib/sha1.c:228-236 | With an exact count that is the SHA-1 of section 4's padded message |
| Sha1.HashPieces | lib/sha1.c:181-252 | However a message is split into pieces under 2^29 bytes, the digest is that of the whole |
| Sha1Examples.AbcHashed | lib/sha1.c:122-252 | "abc" hashes to the digest of FIPS PUB 180-1, appendix A |
| Sha1Examples.MessageHashed | lib/sha1.c:122-252 | The message of two blocks hashes to the digest of appendix B |
| Sha1Examples.TableOfBlock | lib/sha1.c:122-177 | The tables of schedule words and registers those examples rest on are those of a block's rounds |
| Sha1.SpelledOnce | lib/sha1.c:237-240 | The five words leave no choice of the twenty digest bytes |
| Sha1Spec.ZerosAreFewest | lib/sha1.c:232-235 | The padding of the specification is the shortest that fits |
| Frames.HeaderRoundTrip | lib/ws.c:141-191 | A header is read back as it was sent if and only if its fields fit the bits they are given |
| Frames.ShortestForm | lib/ws.c:160-184 | No header that says the same is shorter (RFC 6455, section 5.2) |
| Frames.FrameRoundTrip | lib/ws.c:195-220 | A frame followed by anything parses back to the same frame and the same unmasked payload |
| Frames.StreamRoundTrip | lib/ws.c:195-220 | So does any sequence of frames |
| Frames.MaskedTwice | lib/ws.c:200-206 | Masking twice with one key is the identity |
| Frames.PieceIsRight | lib/ws.c:125-140 | A payload read from offset o on is unmasked correctly if and only if the key looks the same from there |
| Frames.SecondPieceGarbled | lib/ws.c:134-137 | A second piece that starts one byte in is garbled |
| Frames.WholeFromPieces | lib/ws.c:125-140 | Pieces unmasked one by one make the payload if and only if there is no mask or every piece is in step with the key |
| Frames.FoursAreInStep | lib/ws.c:134-137 | Pieces of which all but the last are multiples of four are in step with every key |
| Frames.InStepNeedsFours | lib/ws.c:134-137 | With a key of four different bytes, and no empty pieces, no others are |
| Frames.WholeIsHeard | lib/ws.c:38-97 | A header that is all there is read as it is, whatever the memory held |
| Frames.HeardThoughCutIff | lib/ws.c:38-97 | A header that is not all there is read as one if and only if the stream ends inside its last field, after at least one byte of it |
| FrameExamples.XorBits | lib/ws.c:134-137 | Each bit of a masked byte is the sum of the two bits modulo two |
| FrameExamples.HelloUnmasked | lib/ws.c:195-220 | The unmasked "Hello" of RFC 6455, section 5.7, byte for byte, written and read |
| FrameExamples.HelloMasked | lib/ws.c:195-220 | The masked "Hello" and its pong, byte for byte, written and read |
| FrameExamples.HelloInFragments | lib/ws.c:195-220 | The two fragments of "Hello", byte for byte |
| FrameExamples.LongHeaders | lib/ws.c:160-184 | The headers of 256 bytes and of 64 KiB, byte for byte |
| FrameExamples.CutLength | lib/ws.c:75-80 | A header that ends inside its length is read with what was on the stack |
| FrameExamples.Replies | lib/ws.c:98-113 | What is sent back to a close, to the ping of "Hello" and to text, byte for byte |
| FrameExamples.CloseFrames | lib/ws.c:335-356 | The close frames for the status codes 1000 and 1011, byte for byte |
| FrameExamples.FileHeaders | lib/ws.c:266-287 | A file is sent in frames of 1024 bytes and one more, whose headers say so |
| WebSocket.SendHeader | lib/ws.c:141-191 | Exactly the header's bytes are sent, in one of the three length forms |
| WebSocket.SendFrame | lib/ws.c:195-220 | The frame's bytes are sent; the caller's data is left alone |
| WebSocket.SendClose | lib/ws.c:335-356 | A close frame with the status code is sent |
| WebSocket.ReadFields | lib/ws.c:38-97 | Reading field by field makes of the stream what `Frames.Heard` says: the header in front if it is all there; a truncated one is taken for whole if a byte of its last field comes, and makes it fail otherwise |
| WebSocket.ReadHeader | lib/ws.c:38-120 | In addition a close is answered in kind; a ping that is all there is echoed and its payload consumed; and whether that kept to the buffer |
| WebSocket.ReadData | lib/ws.c:125-140 | How many bytes are taken, what they unmask to, what is left to read, when it fails, and whether the null behind them lands inside the buffer |
| WebSocket.ReadPayload | lib/ws.c:125-140 | One read for each length takes the whole payload off the wire, counts `plen` down to 0 and delivers the pieces |
| WebSocket.ReadPieces | lib/ws.c:38-140 | After the header of a frame such reads put together are the payload if and only if there is no mask or every piece is in step, and so whenever all but the last are multiples of four |
| WebSocket.Pong | lib/ws.c:299-322 | Whether the null lands inside the buffer allocated; a payload that is all there goes back unmasked in a pong frame |
| WebSocket.PongFitsIff | lib/ws.c:299-322 | The null lands inside if and only if the ping is empty, is longer than an int can say, or is not all there |
| WebSocket.OneBytePingOverruns | lib/ws.c:299-322 | A well-formed ping of one byte puts it one past the end |
| WebSocket.ReceiveAll | lib/ws.c:38-140 | Whatever sound frames were sent, receiving them keeps to every buffer if and only if no ping has a payload; then the same are received in order, and each close and ping has been answered |
| FileTransfer.SendFile | lib/ws.c:253-294 | The fragments of the whole file are sent, or a close frame if it cannot be opened |
| FileTransfer.FileIsOneMessage | lib/ws.c:266-287 | The fragments' payloads make the file; the first has opcode binary and the rest none, only the last is final, and all but the last fill the buffer |
| FileTransfer.FileArrives | lib/ws.c:253-294 | The peer that parses them gets one binary message, and it is the file |
| Tables.HashIsWeighted | lib/utils.c:350-356 | The hash is the sum of the characters, each times a power of 31, modulo 2^32 |
| Tables.EntriesInOrder | lib/dictionary.h:28-30 | The entries are met in the order of their buckets |
| Dictionary.ComputeSimpleHash | lib/utils.c:350-356 | The loop computes the 32-bit polynomial hash of signed characters |
| Dictionary.Dict.constructor | lib/dictionary.c:32-48 | A new dictionary is the empty table, unless it was given no buckets |
| Dictionary.Dict.Lookup | lib/dictionary.c:49-64 | Returns the node of the key in its bucket, or null exactly when there is none |
| Dictionary.Dict.Value | lib/dictionary.c:137-143 | The stored value; a missing key reads as null |
| Dictionary.Dict.PutKey | lib/dictionary.c:65-98 | Returns the key's node; a new key goes last in its bucket and is counted |
| Dictionary.Dict.Put | lib/dictionary.c:99-112 | The table becomes that of `Tables.Put`; a key already there keeps its place |
| Dictionary.Dict.Remove | lib/dictionary.c:113-136 | The table becomes that of `Tables.Remove`; the removed node comes back detached, with its value |
| Dictionary.Dict.ForEach | lib/dictionary.h:28-30 | The macro's two loops meet exactly the entries, bucket after bucket |
| Dictionary.Dict.OneBucketOnly | lib/dictionary.c:65-98 | Buckets share no node |
| Tables.PutRefines | lib/dictionary.c:99-112 | Putting is map update, keeps every key in its bucket once, and counts a new key once |
| Tables.RemoveRefines | lib/dictionary.c:113-136 | Removing is map removal, and uncounts a key that was there |
| Tables.EntriesAreTheMap | lib/dictionary.h:28-30 | The entries are the map's bindings, no key twice |
| Tables.RunIsTheMap | lib/dictionary.c:32-136 | After any sequence of puts and removes, with any number of buckets, the table is the map and its size is the count |
| Base64.Encode | lib/base64.c:155-186 | Writes the encoding and a null, returns how many bytes that is, and touches nothing beyond |
| Base64.Decode | lib/base64.c:102-145 | Writes the decoded bytes and a null, returns their number, even when decoding a string where it lies |
| Base64.ComputeDecodeLen | lib/base64.c:87-100 | The room asked for suffices for every terminated string |
| Base64.DecodedLength | lib/base64.c:141-144 | The arithmetic of the return value is the number of bytes decoded |
| Base64Examples.SymbolOfValue | lib/base64.c:147-148 | The symbol of a value is the character at that place of the 64-character alphabet, and the pad is '=' |
| Base64Examples.ValueOfSymbol | lib/base64.c:66-85 | A byte decodes to its place in that alphabet, and to nothing if it is not there |
| Base64Examples.TestVectors | lib/base64.c:102-186 | The test vectors of RFC 4648, section 10, both ways |
| Base64Spec.EncodedLength | lib/base64.c:150-153 | Four symbols for every three bytes begun |
| Base64Spec.EncodeThenDecode | lib/base64.c:102-186 | Decoding what was encoded gives the bytes back, and encodings are canonical |
| Base64Spec.CanonicalRoundTrip | lib/base64.c:102-186 | Encoding what was decoded gives the string back if and only if it was a canonical padded encoding (RFC 4648, sections 3.5 and 4) |
| UrlCodec.UrlEncode | lib/utils.c:318-333 | Writes the encoding and a null into a buffer that is always large enough |
| UrlCodec.UrlDecode | lib/utils.c:285-316 | Writes the decoding and a null into a buffer that is always large enough |
| UrlExamples.EncodedAs | lib/utils.c:323-328 | Letters, digits and four marks stand for themselves, a space for '+', everything else for '%' and two lower-case digits |
| UrlExamples.DecodedAs | lib/utils.c:295-308 | An escape is read with digits of either case, a '+' as a space |
| UrlExamples.Examples | lib/utils.c:285-333 | " /" becomes "+%2f", and "%41+b" is "A b" |
| UrlCodec.DecodeEncode | lib/utils.c:285-333 | Decoding undoes encoding for every string; encoding at most triples the length |
| UrlCodec.DecodeShrinks | lib/utils.c:285-316 | Decoding never lengthens |
| UrlCodec.EncodeDecode | lib/utils.c:285-333 | Encoding what was decoded gives the string back if and only if it was canonical |

## Left out

- Sockets, TLS, compression, signals, logging, plugins loaded from disk, and the statistics thread: they only feed
  the interfaces above.
- What handlers do besides returning: header, cookie and multipart parsing, rewriting, proxy relaying.
- Scheduler.PollStep: a polled id that is no longer in the task tree is skipped, which `StructureProofs.Polls`
  shows never happens; the transition system also lets the loop stop looking at poll results early, which only adds runs.
- Scheduler.Called: tasks are values in the transition system, so two pointers to one task are one value; the
  pointers themselves are in `EventRound` and `LinkedQueue`.
- Tasks.CanReturn: the sets of possible results are read off each handler's body, and a plugin that hands back
  `finish_request` itself is not covered.
- Identifiers.NextId: the allocator's 32-bit overflow after two thousand million draws.
- The scheduler called with task id 0 (`lib/scheduler.c:552-553`): no request has one.
- The count of open connections: it is decremented without a lock, and on a failed TLS set-up without having been
  incremented (`httpd.c:229-231`, `server.c:270`), so it is no conserved quantity.
- Releasing memory at `antd_scheduler_destroy`: the free callback is not passed to children (`lib/bst.c:10-11`).
- EventRound.Round: other threads at the task tree while it runs, and handlers called with no workers, which insert
  into it: that round is the one of `Rounds.RoundTakesOutExactlyTheReady`, over task values and not in memory.
- EventRound.Deploy: `antd_task_schedule` for each task taken out, which is in the transition system.
- WebSocket.Pong: what a null written past its buffer does to other memory.
- WebSocket.ReadData: payloads of 2^31 bytes and more fail, as the negative length makes the read fail.
- `ws_send_text`, `ws_send_binary`, `ws_ping` and the handshake: one call of `ws_send_frame`, or string formatting.
- Sha1Block.Transform: the big-endian variant without the byte swap, and the variant that copies the block first.
- Sha1.Context.Update: lengths within 64 bytes of 2^64, where the index would wrap; no object is that long.
- Dictionary.Dict.Put: freeing the value replaced, and failed allocations.
- Dictionary.Dict.Lookup: a dictionary of capacity 0, with which this and every other call divides by zero.
- `list_remove`, the plugin table, `ini` files, MIME types, md5 and the string helpers.
